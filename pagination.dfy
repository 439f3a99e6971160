/** `get_all_pages` (lambda.py:98-131): follow the `Link: <url>; rel="next"`
    header from page to page and concatenate the items of every successful
    page. The HTTP client is replaced by an abstract server, a total function
    from URL to response. */
module Pagination {
  import opened Values
  import opened Text

  /** The marker the code looks for in the `Link` header. */
  const REL_NEXT := "rel=\"next\""

  /** What one GET returns: the HTTP status, the decoded JSON array, and the
      `Link` header, which reads as "" when the server sends none. */
  datatype Response = Response(status: int, body: seq<Object>, link: string)

  /** The API as seen from the loop: what a GET of each URL returns. */
  type Server = string -> Response

  /** `while next_url:` goes on only for a URL that is neither `None` nor "". */
  predicate Present(url: Option<string>)
  {
    url.Some? && url.value != ""
  }

  /** The text between the first `<` and the first `>` of one part, by
      Python's slice rules, where `find` gives -1 for a missing character. */
  function Target(part: string): string
  {
    Slice(part, Find(part, '<') + 1, Find(part, '>'))
  }

  /** Part `k` is the first of `parts` that contains `pat`. */
  predicate FirstAt(parts: seq<string>, pat: string, k: int)
  {
    0 <= k < |parts| && Contains(parts[k], pat) &&
    forall j :: 0 <= j < k ==> !Contains(parts[j], pat)
  }

  /** The part that the `for part in parts` loop stops at, if any. */
  function FirstWith(parts: seq<string>, pat: string): (r: Option<string>)
    ensures r.None? <==> forall k :: 0 <= k < |parts| ==> !Contains(parts[k], pat)
    ensures r.Some? ==> exists k :: FirstAt(parts, pat, k) && r.value == parts[k]
    decreases |parts|
  {
    if |parts| == 0 then None
    else if Contains(parts[0], pat) then
      assert FirstAt(parts, pat, 0);
      Some(parts[0])
    else
      var r := FirstWith(parts[1..], pat);
      assert forall k :: 1 <= k < |parts| ==> parts[k] == parts[1..][k - 1];
      assert forall k :: FirstAt(parts[1..], pat, k) ==> FirstAt(parts, pat, k + 1);
      r
  }

  /** Only one index can be the first. */
  lemma FirstAtUnique(parts: seq<string>, pat: string, k: int, m: int)
    requires FirstAt(parts, pat, k) && FirstAt(parts, pat, m)
    ensures k == m
  {
  }

  /** Earlier parts that all lack `pat` do not change where the search stops,
      and later parts never matter once a part has it. */
  lemma {:induction false} FirstWithConcat(a: seq<string>, b: seq<string>, pat: string)
    ensures FirstWith(a + b, pat) == if FirstWith(a, pat).Some? then FirstWith(a, pat) else FirstWith(b, pat)
    decreases |a|
  {
    if |a| == 0 {
      assert a + b == b;
    } else {
      assert (a + b)[0] == a[0];
      assert (a + b)[1..] == a[1..] + b;
      FirstWithConcat(a[1..], b, pat);
    }
  }

  /** lambda.py:120-127: the next URL named by a `Link` header, or `None`. */
  function NextLink(header: string): Option<string>
  {
    if !Contains(header, REL_NEXT) then None
    else
      match FirstWith(Split(header, ','), REL_NEXT)
      case None => None
      case Some(part) => Some(Target(part))
  }

  /** A next URL is found exactly when the header contains `rel="next"`, and it
      is the target of the first comma-separated part that contains it. */
  lemma NextLinkFirstPart(header: string)
    ensures NextLink(header).Some? <==> Contains(header, REL_NEXT)
    ensures Contains(header, REL_NEXT) ==>
      exists k :: FirstAt(Split(header, ','), REL_NEXT, k) &&
        NextLink(header) == Some(Target(Split(header, ',')[k]))
  {
    if Contains(header, REL_NEXT) {
      ContainsSomePiece(header, REL_NEXT, ',');
    }
  }

  /** Entries after the first one with `rel="next"` are ignored. */
  lemma NextLinkIgnoresLater(header: string, rest: string)
    requires Contains(header, REL_NEXT)
    ensures NextLink(header + "," + rest) == NextLink(header)
  {
    var whole := header + "," + rest;
    assert whole == header + [','] + rest;
    ContainsInConcat(header, [','] + rest, REL_NEXT);
    assert whole == header + ([','] + rest);
    SplitAtSep(header, rest, ',');
    ContainsSomePiece(header, REL_NEXT, ',');
    FirstWithConcat(Split(header, ','), Split(rest, ','), REL_NEXT);
  }

  /** Entries before it that lack `rel="next"` are skipped. */
  lemma NextLinkSkipsEarlier(earlier: string, header: string)
    requires !Contains(earlier, REL_NEXT)
    ensures NextLink(earlier + "," + header) == NextLink(header)
  {
    var whole := earlier + "," + header;
    assert whole == earlier + [','] + header;
    SplitAtSep(earlier, header, ',');
    NoPieceContains(earlier, REL_NEXT, ',');
    FirstWithConcat(Split(earlier, ','), Split(header, ','), REL_NEXT);
    if Contains(header, REL_NEXT) {
      ContainsInConcat(earlier + [','], header, REL_NEXT);
    } else if Contains(whole, REL_NEXT) {
      ContainsAcrossSep(earlier, header, REL_NEXT, ',');
    }
  }

  /** A part written as in the Web Linking header format (section 3 of
      RFC 8288), `pre<url>post` with no `<` or `>` before the URL and no `>`
      inside it, yields exactly the URL. */
  lemma TargetOfBracketed(pre: string, url: string, post: string)
    requires '<' !in pre && '>' !in pre && '>' !in url
    ensures Target(pre + "<" + url + ">" + post) == url
  {
    var part := pre + "<" + url + ">" + post;
    var open, close := |pre|, |pre| + 1 + |url|;
    assert part[open] == '<' && part[..open] == pre;
    assert part[close] == '>' && part[..close] == pre + "<" + url;
    assert '>' !in pre + "<" + url;
    assert Find(part, '<') == open;
    assert Find(part, '>') == close;
    assert part[open + 1..close] == url;
  }

  /** Without a `>`, `find` gives -1 and the slice runs to one character before
      the end: the last character of the part is dropped, and a part whose
      only `<` is its last character gives the empty target. */
  lemma TargetWithoutClose(part: string)
    requires '>' !in part && |part| > 0
    ensures '<' !in part ==> Target(part) == part[..|part| - 1]
    ensures '<' in part && Find(part, '<') < |part| - 1 ==>
      Target(part) == part[Find(part, '<') + 1..|part| - 1]
    ensures '<' in part && Find(part, '<') == |part| - 1 ==> Target(part) == ""
  {
    var open, close := Find(part, '<'), Find(part, '>');
    assert close == -1;
    if '<' !in part {
      assert open + 1 == 0;
    } else if open < |part| - 1 {
      assert 0 <= open + 1 <= |part| - 1;
    }
  }

  /** A single well-formed `<url>; rel="next"` entry names its URL. */
  lemma NextLinkOfEntry(pre: string, url: string, post: string)
    requires '<' !in pre && '>' !in pre && '>' !in url
    requires ',' !in pre && ',' !in url && ',' !in post
    requires Contains(post, REL_NEXT)
    ensures NextLink(pre + "<" + url + ">" + post) == Some(url)
  {
    var entry := pre + "<" + url + ">" + post;
    assert entry == (pre + "<" + url + ">") + post;
    ContainsInConcat(pre + "<" + url + ">", post, REL_NEXT);
    assert ',' !in entry;
    SplitWithoutSep(entry, ',');
    TargetOfBracketed(pre, url, post);
  }

  /** The chain of links from `next` ends within `bound` requests: a page
      fails or names no next URL. The source loop has no bound of its own
      and runs forever on a cyclic chain; callers must know it ends. */
  predicate Ends(server: Server, next: Option<string>, bound: nat)
    decreases bound
  {
    !Present(next) ||
    (bound > 0 &&
     var r := server(next.value);
     (r.status != 200 || Ends(server, NextLink(r.link), bound - 1)))
  }

  /** The responses the loop receives, in the order it receives them. */
  function Chain(server: Server, next: Option<string>, bound: nat): seq<Response>
    requires Ends(server, next, bound)
    decreases bound
  {
    if !Present(next) then []
    else
      var r := server(next.value);
      if r.status != 200 then [r] else [r] + Chain(server, NextLink(r.link), bound - 1)
  }

  /** The items of the successful responses, in order. */
  function Pages(rs: seq<Response>): seq<Object>
    decreases |rs|
  {
    if |rs| == 0 then []
    else (if rs[0].status == 200 then rs[0].body else []) + Pages(rs[1..])
  }

  /** The items of all the responses, in order. */
  function Bodies(rs: seq<Response>): seq<Object>
    decreases |rs|
  {
    if |rs| == 0 then [] else rs[0].body + Bodies(rs[1..])
  }

  /** The number of items over all the responses. */
  function TotalItems(rs: seq<Response>): nat
    decreases |rs|
  {
    if |rs| == 0 then 0 else |rs[0].body| + TotalItems(rs[1..])
  }

  lemma {:induction false} PagesConcat(a: seq<Response>, b: seq<Response>)
    ensures Pages(a + b) == Pages(a) + Pages(b)
    decreases |a|
  {
    if |a| == 0 {
      assert a + b == b;
    } else {
      assert (a + b)[0] == a[0];
      assert (a + b)[1..] == a[1..] + b;
      PagesConcat(a[1..], b);
    }
  }

  /** The loop starts at `next`, each response that lets it go on names the
      URL it requests next, every response but the last was a 200 with a next
      URL, and the last one was not a 200 or named no next URL. */
  lemma {:induction false} ChainFollowsLinks(server: Server, next: Option<string>, bound: nat)
    requires Ends(server, next, bound)
    ensures var c := Chain(server, next, bound);
      (!Present(next) <==> c == []) &&
      (Present(next) ==> c[0] == server(next.value)) &&
      (forall k :: 0 <= k < |c| - 1 ==>
         c[k].status == 200 && Present(NextLink(c[k].link)) &&
         c[k + 1] == server(NextLink(c[k].link).value)) &&
      (|c| > 0 ==> c[|c| - 1].status != 200 || !Present(NextLink(c[|c| - 1].link)))
    decreases bound
  {
    if Present(next) {
      var r := server(next.value);
      if r.status == 200 {
        var n := NextLink(r.link);
        ChainFollowsLinks(server, n, bound - 1);
        var rest := Chain(server, n, bound - 1);
        var c := Chain(server, next, bound);
        assert c == [r] + rest;
        forall k | 0 <= k < |c| - 1
          ensures c[k].status == 200 && Present(NextLink(c[k].link)) &&
                  c[k + 1] == server(NextLink(c[k].link).value)
        {
          if k > 0 {
            assert c[k] == rest[k - 1] && c[k + 1] == rest[k];
          }
        }
      }
    }
  }

  /** A non-200 response ends pagination: it can only be the last one, its
      body is not added, and the items of all the pages before it are. */
  lemma ErrorEndsPagination(server: Server, url: string, bound: nat, k: nat)
    requires Ends(server, Some(url), bound)
    requires k < |Chain(server, Some(url), bound)| && Chain(server, Some(url), bound)[k].status != 200
    ensures var c := Chain(server, Some(url), bound);
      k == |c| - 1 && Pages(c) == Bodies(c[..k])
  {
    var c := Chain(server, Some(url), bound);
    ChainFollowsLinks(server, Some(url), bound);
    assert c == c[..k] + [c[k]];
    PagesConcat(c[..k], [c[k]]);
    AllSuccessBodies(c[..k]);
  }

  /** With every request a success, the result is every page's items in
      order, and its length is the sum of the per-page item counts. */
  lemma AllSuccess(server: Server, url: string, bound: nat)
    requires Ends(server, Some(url), bound)
    requires forall k :: 0 <= k < |Chain(server, Some(url), bound)| ==> Chain(server, Some(url), bound)[k].status == 200
    ensures var c := Chain(server, Some(url), bound);
      Pages(c) == Bodies(c) && |Pages(c)| == TotalItems(c)
  {
    var c := Chain(server, Some(url), bound);
    AllSuccessBodies(c);
  }

  lemma {:induction false} AllSuccessBodies(rs: seq<Response>)
    requires forall k :: 0 <= k < |rs| ==> rs[k].status == 200
    ensures Pages(rs) == Bodies(rs) && |Bodies(rs)| == TotalItems(rs)
    decreases |rs|
  {
    if |rs| > 0 {
      AllSuccessBodies(rs[1..]);
    }
  }

  /** lambda.py:120-127 as the code runs it: `None` unless the header has
      `rel="next"`, then a scan of the comma-separated parts that stops at
      the first part with it. */
  method ParseNextUrl(linkHeader: string) returns (nextUrl: Option<string>)
    ensures nextUrl == NextLink(linkHeader)
  {
    nextUrl := None;
    if Contains(linkHeader, REL_NEXT) {
      var parts := Split(linkHeader, ',');
      var i := 0;
      while i < |parts|
        invariant 0 <= i <= |parts|
        invariant forall j :: 0 <= j < i ==> !Contains(parts[j], REL_NEXT)
      {
        if Contains(parts[i], REL_NEXT) {
          assert FirstAt(parts, REL_NEXT, i);
          var k :| FirstAt(parts, REL_NEXT, k) && FirstWith(parts, REL_NEXT).value == parts[k];
          FirstAtUnique(parts, REL_NEXT, i, k);
          nextUrl := Some(Target(parts[i]));
          return;
        }
        i := i + 1;
      }
    }
  }

  /** `get_all_pages(url, headers)`: the items of the successful responses of
      the chain starting at `url`. `bound` is only a proof that the loop ends. */
  method GetAllPages(server: Server, url: string, ghost bound: nat) returns (allResults: seq<Object>)
    requires Ends(server, Some(url), bound)
    ensures allResults == Pages(Chain(server, Some(url), bound))
  {
    allResults := [];
    var nextUrl: Option<string> := Some(url);
    ghost var left := bound;
    while Present(nextUrl)
      invariant Ends(server, nextUrl, left)
      invariant allResults + Pages(Chain(server, nextUrl, left)) == Pages(Chain(server, Some(url), bound))
      decreases left
    {
      var response := server(nextUrl.value);
      PagesStep(server, nextUrl, left);
      if response.status != 200 {
        assert allResults + [] == allResults;
        break;
      }
      assert allResults + (response.body + Pages(Chain(server, NextLink(response.link), left - 1)))
          == (allResults + response.body) + Pages(Chain(server, NextLink(response.link), left - 1));
      allResults := allResults + response.body;
      var found := ParseNextUrl(response.link);
      assert found == NextLink(response.link);
      nextUrl := found;
      left := left - 1;
    }
    if !Present(nextUrl) {
      assert allResults + [] == allResults;
    }
  }

  /** One turn of the loop, in terms of the items collected from here on. */
  lemma PagesStep(server: Server, next: Option<string>, bound: nat)
    requires Ends(server, next, bound) && Present(next)
    ensures var r := server(next.value);
      bound > 0 &&
      (r.status != 200 ==> Pages(Chain(server, next, bound)) == []) &&
      (r.status == 200 ==>
         Ends(server, NextLink(r.link), bound - 1) &&
         Pages(Chain(server, next, bound)) == r.body + Pages(Chain(server, NextLink(r.link), bound - 1)))
  {
    var r := server(next.value);
    if r.status == 200 {
      var rest := Chain(server, NextLink(r.link), bound - 1);
      assert Chain(server, next, bound) == [r] + rest;
      assert ([r] + rest)[1..] == rest;
    }
  }
}
