/**
 * extract_member_urls (scrapping_utils.py:43-58): the absolute URLs of the
 * member detail pages a listing page links to, without duplicates, in the
 * order in which they first appear.
 *
 * The parsed page is the sequence of the `href` attributes of its anchors in
 * document order (None for an anchor without one). `urljoin` is the
 * parameter `join`, an arbitrary function: the model assumes nothing about
 * how it resolves a reference against the base URL.
 */
module MemberUrls {
  import opened Optional
  import opened PyStr

  const MembersMarker: string := "/members/"

  /** The anchor filter: a truthy href containing "/members/" that is not "/members/" itself. */
  predicate IsMemberHref(href: Option<string>)
  {
    href.Some? && href.value != "" && Contains(href.value, MembersMarker) && href.value != MembersMarker
  }

  /** The resolved URL of every member link, in document order, duplicates included. */
  function MemberLinks(hrefs: seq<Option<string>>, baseUrl: string, join: (string, string) -> string): (links: seq<string>)
    ensures forall u :: u in links <==>
      exists i :: 0 <= i < |hrefs| && IsMemberHref(hrefs[i]) && u == join(baseUrl, hrefs[i].value)
  {
    if hrefs == [] then []
    else
      var init := hrefs[..|hrefs| - 1];
      var last := hrefs[|hrefs| - 1];
      assert forall i :: 0 <= i < |init| ==> init[i] == hrefs[i];
      var rest := MemberLinks(init, baseUrl, join);
      if IsMemberHref(last) then rest + [join(baseUrl, last.value)] else rest
  }

  predicate NoDuplicates(s: seq<string>)
  {
    forall i, j :: 0 <= i < j < |s| ==> s[i] != s[j]
  }

  /** Keeps the first occurrence of every element, as the `not in` check before `append` does. */
  function Dedup(s: seq<string>): (d: seq<string>)
    ensures NoDuplicates(d)
    ensures forall x :: x in d <==> x in s
  {
    if s == [] then []
    else
      var init := Dedup(s[..|s| - 1]);
      var last := s[|s| - 1];
      assert forall x :: x in s <==> x in s[..|s| - 1] || x == last;
      if last in init then init else init + [last]
  }

  /** Position of the first occurrence of `x` in `s`. */
  function FirstIndex(s: seq<string>, x: string): (k: nat)
    requires x in s
    ensures k < |s| && s[k] == x && x !in s[..k]
  {
    if s[0] == x then 0
    else
      assert x in s[1..];
      var k := FirstIndex(s[1..], x);
      assert s[..k + 1] == [s[0]] + s[1..][..k];
      k + 1
  }

  lemma FirstIndexOfPrefix(s: seq<string>, n: nat, x: string)
    requires n <= |s| && x in s[..n]
    ensures FirstIndex(s, x) == FirstIndex(s[..n], x)
  {
  }

  /** Dedup lists the distinct elements in the order of their first occurrences. */
  lemma {:induction false} DedupFirstSeenOrder(s: seq<string>)
    ensures forall i, j :: 0 <= i < j < |Dedup(s)| ==>
      FirstIndex(s, Dedup(s)[i]) < FirstIndex(s, Dedup(s)[j])
  {
    if s != [] {
      var n := |s| - 1;
      var init, last := s[..n], s[n];
      var d, d' := Dedup(s), Dedup(init);
      DedupFirstSeenOrder(init);
      forall x | x in d'
        ensures FirstIndex(s, x) == FirstIndex(init, x) < n
      {
        FirstIndexOfPrefix(s, n, x);
      }
      if last !in d' {
        assert last !in init;
        assert s[..n] == init;
        assert FirstIndex(s, last) == n;
      }
      forall i, j | 0 <= i < j < |d|
        ensures FirstIndex(s, d[i]) < FirstIndex(s, d[j])
      {
        assert d[i] == d'[i];
        if j < |d'| {
          assert d[j] == d'[j];
        }
      }
    }
  }

  method ExtractMemberUrls(hrefs: seq<Option<string>>, baseUrl: string, join: (string, string) -> string)
    returns (memberUrls: seq<string>)
    ensures memberUrls == Dedup(MemberLinks(hrefs, baseUrl, join))
    ensures NoDuplicates(memberUrls)
    ensures forall u :: u in memberUrls <==>
      exists i :: 0 <= i < |hrefs| && IsMemberHref(hrefs[i]) && u == join(baseUrl, hrefs[i].value)
  {
    memberUrls := [];
    for i := 0 to |hrefs|
      invariant memberUrls == Dedup(MemberLinks(hrefs[..i], baseUrl, join))
    {
      var seen := MemberLinks(hrefs[..i], baseUrl, join);
      var prefix := hrefs[..i + 1];
      assert prefix[..i] == hrefs[..i] && prefix[i] == hrefs[i];
      var href := hrefs[i];
      if href.Some? && href.value != "" && Contains(href.value, MembersMarker) && href.value != MembersMarker {
        var fullUrl := join(baseUrl, href.value);
        var links := MemberLinks(prefix, baseUrl, join);
        assert links == seen + [fullUrl];
        assert links[..|links| - 1] == seen;
        if fullUrl !in memberUrls {
          memberUrls := memberUrls + [fullUrl];
        }
      } else {
        assert MemberLinks(prefix, baseUrl, join) == seen;
      }
    }
    assert hrefs[..|hrefs|] == hrefs;
  }
}
