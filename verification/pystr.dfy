/**
 * ASCII models of the Python `str` operations the scraping helpers use:
 * `isspace`, `strip()`, `split()`, `' '.join`, `lower()`, the `in`
 * operator on strings, `split(c, 1)` and `replace(old, '')`.
 */
module PyStr {
  import opened Optional

  /** `c.isspace()` restricted to ASCII: tab, LF, VT, FF, CR, the four separators 0x1C-0x1F, and space. */
  predicate IsSpace(c: char)
  {
    c == ' ' || ('\t' <= c <= '\r') || ('\U{1C}' <= c <= '\U{1F}')
  }

  predicate AllSpace(s: string)
  {
    forall i :: 0 <= i < |s| ==> IsSpace(s[i])
  }

  /** A word as `split()` produces it: non-empty, without whitespace. */
  predicate IsWord(w: string)
  {
    w != [] && forall i :: 0 <= i < |w| ==> !IsSpace(w[i])
  }

  predicate AllWords(ws: seq<string>)
  {
    forall i :: 0 <= i < |ws| ==> IsWord(ws[i])
  }

  /**
   * Whitespace-normalised text: non-empty, no leading or trailing whitespace,
   * and every whitespace character is a single space followed by a word character.
   */
  predicate Normalized(t: string)
  {
    && t != []
    && !IsSpace(t[0])
    && !IsSpace(t[|t| - 1])
    && forall i :: 0 <= i < |t| && IsSpace(t[i]) ==> t[i] == ' ' && i + 1 < |t| && !IsSpace(t[i + 1])
  }

  // ---------------------------------------------------------------- strip()

  /** `lstrip()`: drops the leading whitespace and nothing else. */
  function StripLeft(s: string): (r: string)
    ensures |r| <= |s| && r == s[|s| - |r|..]
    ensures AllSpace(s[..|s| - |r|])
    ensures r != [] ==> !IsSpace(r[0])
  {
    if s != [] && IsSpace(s[0]) then StripLeft(s[1..]) else s
  }

  /** `rstrip()`: drops the trailing whitespace and nothing else. */
  function StripRight(s: string): (r: string)
    ensures |r| <= |s| && r == s[..|r|]
    ensures AllSpace(s[|r|..])
    ensures r != [] ==> !IsSpace(r[|r| - 1])
  {
    if s != [] && IsSpace(s[|s| - 1]) then StripRight(s[..|s| - 1]) else s
  }

  /** `strip()`: nothing is left of blank text; otherwise the result starts and ends with a non-space. */
  function Strip(s: string): (r: string)
    ensures |r| <= |s|
    ensures r == [] <==> AllSpace(s)
    ensures r != [] ==> !IsSpace(r[0]) && !IsSpace(r[|r| - 1])
  {
    var l := StripLeft(s);
    assert s == s[..|s| - |l|] + l;
    StripRight(l)
  }

  /** `strip()` keeps text that neither starts nor ends with whitespace. */
  lemma StripUnpadded(s: string)
    requires s != [] && !IsSpace(s[0]) && !IsSpace(s[|s| - 1])
    ensures Strip(s) == s
  {
  }

  // ---------------------------------------------------------------- split() and join

  /** Length of the run of non-whitespace characters that starts `s`. */
  function WordLen(s: string): (n: nat)
    ensures n <= |s|
    ensures forall i :: 0 <= i < n ==> !IsSpace(s[i])
    ensures n < |s| ==> IsSpace(s[n])
  {
    if s == [] || IsSpace(s[0]) then 0 else 1 + WordLen(s[1..])
  }

  lemma {:induction false} WordLenAfterWord(w: string, rest: string)
    requires forall i :: 0 <= i < |w| ==> !IsSpace(w[i])
    requires rest == [] || IsSpace(rest[0])
    ensures WordLen(w + rest) == |w|
  {
    if w != [] {
      assert (w + rest)[1..] == w[1..] + rest;
      WordLenAfterWord(w[1..], rest);
    } else {
      assert w + rest == rest;
    }
  }

  /** `s.split()`: the maximal runs of non-whitespace characters, in order. */
  function Words(s: string): (ws: seq<string>)
    ensures AllWords(ws)
    ensures ws == [] <==> AllSpace(s)
    decreases |s|
  {
    if s == [] then []
    else if IsSpace(s[0]) then Words(s[1..])
    else
      var n := WordLen(s);
      [s[..n]] + Words(s[n..])
  }

  lemma WordsLeadingSpace(s: string)
    requires s != [] && IsSpace(s[0])
    ensures Words(s) == Words(s[1..])
  {
  }

  /** A word followed by whitespace, or by nothing, is the first word `split()` yields. */
  lemma WordsAfterWord(w: string, rest: string)
    requires IsWord(w)
    requires rest == [] || IsSpace(rest[0])
    ensures Words(w + rest) == [w] + Words(rest)
  {
    WordLenAfterWord(w, rest);
    var t := w + rest;
    assert t[..|w|] == w && t[|w|..] == rest;
  }

  /** A whitespace character separates: the words around it are split independently. */
  lemma {:induction false} WordsSplitAt(a: string, c: char, b: string)
    requires IsSpace(c)
    ensures Words(a + [c] + b) == Words(a) + Words(b)
    decreases |a|
  {
    if a == [] {
      assert a + [c] + b == [c] + b;
      WordsLeadingSpace([c] + b);
    } else if IsSpace(a[0]) {
      WordsSplitAt(a[1..], c, b);
      WordsSpaceStep(a, c, b);
    } else {
      var w, u := a[..WordLen(a)], a[WordLen(a)..];
      assert a == w + u;
      WordsSplitAt(u, c, b);
      WordsWordCase(w, u, c, b);
    }
  }

  /** The step of WordsSplitAt past a leading whitespace character. */
  lemma WordsSpaceStep(a: string, c: char, b: string)
    requires a != [] && IsSpace(a[0])
    requires Words(a[1..] + [c] + b) == Words(a[1..]) + Words(b)
    ensures Words(a + [c] + b) == Words(a) + Words(b)
  {
    assert (a + [c] + b)[1..] == a[1..] + [c] + b;
    WordsLeadingSpace(a + [c] + b);
    WordsLeadingSpace(a);
  }

  /** The step of WordsSplitAt past a leading word. */
  lemma WordsWordCase(w: string, u: string, c: char, b: string)
    requires IsWord(w) && (u == [] || IsSpace(u[0]))
    requires IsSpace(c)
    requires Words(u + [c] + b) == Words(u) + Words(b)
    ensures Words(w + u + [c] + b) == Words(w + u) + Words(b)
  {
    WordsWordStep(w, u, c, b);
    WordsAfterWord(w, u);
    PrependWord(Words(w + u + [c] + b), Words(w + u), Words(u + [c] + b), Words(u), Words(b), w);
  }

  lemma PrependWord(whole: seq<string>, front: seq<string>, tail: seq<string>, tailFront: seq<string>, back: seq<string>, w: string)
    requires whole == [w] + tail && front == [w] + tailFront && tail == tailFront + back
    ensures whole == front + back
  {
    assert [w] + (tailFront + back) == ([w] + tailFront) + back;
  }

  /** A word, then text that starts with whitespace, then a whitespace character: the word comes first. */
  lemma WordsWordStep(w: string, u: string, c: char, b: string)
    requires IsWord(w) && (u == [] || IsSpace(u[0]))
    requires IsSpace(c)
    ensures Words(w + u + [c] + b) == [w] + Words(u + [c] + b)
  {
    var v := u + [c] + b;
    assert IsSpace(v[0]) by {
      if u == [] {
        assert v[0] == c;
      } else {
        assert v[0] == u[0];
      }
    }
    WordsAfterWord(w, v);
    assert w + u + [c] + b == w + v;
  }

  /** `' '.join(ws)` */
  function Join(ws: seq<string>): string
  {
    if ws == [] then ""
    else if |ws| == 1 then ws[0]
    else ws[0] + " " + Join(ws[1..])
  }

  // ---------------------------------------------------------------- lower()

  function LowerChar(c: char): (d: char)
  {
    if 'A' <= c <= 'Z' then (c as int + 32) as char else c
  }

  /** `s.lower()` restricted to ASCII letters; every other character is kept. */
  function Lower(s: string): (r: string)
    ensures |r| == |s|
    ensures forall i :: 0 <= i < |s| ==> r[i] == LowerChar(s[i])
  {
    if s == [] then [] else [LowerChar(s[0])] + Lower(s[1..])
  }

  // ---------------------------------------------------------------- in, split(c, 1), replace

  /** Python's `p in s` on strings. */
  predicate Contains(s: string, p: string)
    decreases |s|
  {
    if |s| < |p| then false else s[..|p|] == p || Contains(s[1..], p)
  }

  /** `p` occurs in `s` at index `i`. */
  predicate OccursAt(s: string, p: string, i: int)
  {
    0 <= i <= |s| - |p| && s[i..i + |p|] == p
  }

  /** `p in s` holds exactly when `p` occurs in `s` at some index. */
  lemma {:induction false} ContainsIffOccurs(s: string, p: string)
    ensures Contains(s, p) <==> exists i :: OccursAt(s, p, i)
    decreases |s|
  {
    if |s| >= |p| {
      if s[..|p|] == p {
        assert OccursAt(s, p, 0);
      } else {
        ContainsIffOccurs(s[1..], p);
        if Contains(s[1..], p) {
          var i :| OccursAt(s[1..], p, i);
          assert s[i + 1..i + 1 + |p|] == s[1..][i..i + |p|];
          assert OccursAt(s, p, i + 1);
        }
        if exists i :: OccursAt(s, p, i) {
          var i :| OccursAt(s, p, i);
          assert i != 0;
          assert s[1..][i - 1..i - 1 + |p|] == s[i..i + |p|];
          assert OccursAt(s[1..], p, i - 1);
        }
      }
    }
  }

  /** A string does not contain a pattern that has a character the string lacks. */
  lemma {:induction false} MissingCharNotContained(s: string, p: string, c: char)
    requires c in p && c !in s
    ensures !Contains(s, p)
    decreases |s|
  {
    if |s| >= |p| {
      assert c !in s[..|p|] by {
        forall i | 0 <= i < |p|
          ensures s[..|p|][i] != c
        {
          assert s[..|p|][i] == s[i];
        }
      }
      MissingCharNotContained(s[1..], p, c);
    }
  }

  /** Index of the first occurrence of `c`, if any (`s.find(c)`). */
  function IndexOf(s: string, c: char): (r: Option<nat>)
    ensures r.Some? ==> r.value < |s| && s[r.value] == c && c !in s[..r.value]
    ensures r.None? <==> c !in s
  {
    if s == [] then None
    else if s[0] == c then Some(0)
    else
      match IndexOf(s[1..], c)
      case None => None
      case Some(k) => Some(k + 1)
  }

  /** The first occurrence of `c` is the only index where `c` occurs with no `c` before it. */
  lemma IndexOfAt(s: string, c: char, k: nat)
    requires k < |s| && s[k] == c && c !in s[..k]
    ensures IndexOf(s, c) == Some(k)
  {
  }

  /**
   * `s.split(c, 1)` when `c in s`: the text before the first `c` and the text after it.
   * None stands for the one-element list Python returns when `c` does not occur.
   */
  function SplitOnce(s: string, c: char): (r: Option<(string, string)>)
    ensures r.None? <==> c !in s
    ensures r.Some? ==> s == r.value.0 + [c] + r.value.1 && c !in r.value.0
  {
    match IndexOf(s, c)
    case None => None
    case Some(k) =>
      assert s == s[..k] + [c] + s[k + 1..];
      Some((s[..k], s[k + 1..]))
  }

  /** `s.replace(pat, '')`: removes the non-overlapping occurrences of `pat`, scanning left to right. */
  function RemoveAll(s: string, pat: string): (r: string)
    requires pat != []
    ensures |r| <= |s|
    ensures !Contains(s, pat) ==> r == s
    ensures |pat| == 1 ==> pat[0] !in r
    decreases |s|
  {
    if |s| < |pat| then
      assert |pat| == 1 ==> s == [];
      s
    else if s[..|pat|] == pat then RemoveAll(s[|pat|..], pat)
    else
      assert |pat| == 1 ==> s[0] != pat[0];
      [s[0]] + RemoveAll(s[1..], pat)
  }

  /** Removing a character leaves a prefix that lacks it untouched. */
  lemma {:induction false} RemoveCharPrefix(a: string, b: string, c: char)
    requires c !in a
    ensures RemoveAll(a + b, [c]) == a + RemoveAll(b, [c])
  {
    if a != [] {
      var s := a + b;
      assert s[..1] == [a[0]] && a[0] != c;
      assert s[1..] == a[1..] + b;
      RemoveCharPrefix(a[1..], b, c);
      assert a == [a[0]] + a[1..];
    } else {
      assert a + b == b;
    }
  }

  /** Removing a character removes each of its occurrences separately. */
  lemma {:induction false} RemoveCharSplit(a: string, c: char, b: string)
    ensures RemoveAll(a + [c] + b, [c]) == RemoveAll(a, [c]) + RemoveAll(b, [c])
    decreases |a|
  {
    var s := a + [c] + b;
    if a == [] {
      assert s[..1] == [c] && s[1..] == b;
    } else {
      assert s[..1] == [a[0]] && a[..1] == [a[0]];
      assert s[1..] == a[1..] + [c] + b;
      RemoveCharSplit(a[1..], c, b);
    }
  }
}
