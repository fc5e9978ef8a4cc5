/**
 * clean_text (scrapping_utils.py:60-69): collapse the whitespace of a text
 * into single spaces, trim it, and fall back to the placeholder when
 * nothing is left.
 */
module Cleaning {
  import opened PyStr
  import opened Config

  /**
   * Empty or whitespace-only text becomes the placeholder; any other text
   * becomes `' '.join(text.split())`. Either way the result is normalised text.
   */
  function CleanText(text: string): (r: string)
    ensures AllSpace(text) ==> r == Placeholder
    ensures !AllSpace(text) ==> r == Join(Words(text))
    ensures Normalized(r)
  {
    CleanedWords(text);
    if text == [] then Placeholder
    else
      var cleaned := Join(Words(Strip(text)));
      if cleaned == [] then Placeholder else cleaned
  }

  // ---------------------------------------------------------------- what split() sees

  lemma {:induction false} WordsAppendSpace(s: string, c: char)
    requires IsSpace(c)
    ensures Words(s + [c]) == Words(s)
    decreases |s|
  {
    var t := s + [c];
    if s == [] {
      assert Words(t) == Words(t[1..]);
    } else if IsSpace(s[0]) {
      assert t[1..] == s[1..] + [c];
      WordsAppendSpace(s[1..], c);
    } else {
      var n := WordLen(s);
      WordLenAfterWord(s[..n], s[n..]);
      assert s[..n] + s[n..] == s;
      WordLenAfterWord(s[..n], s[n..] + [c]);
      assert s[..n] + (s[n..] + [c]) == t;
      assert t[..n] == s[..n];
      assert t[n..] == s[n..] + [c];
      WordsAppendSpace(s[n..], c);
    }
  }

  lemma {:induction false} WordsStripLeft(s: string)
    ensures Words(StripLeft(s)) == Words(s)
    decreases |s|
  {
    if s != [] && IsSpace(s[0]) {
      WordsStripLeft(s[1..]);
    }
  }

  lemma {:induction false} WordsStripRight(s: string)
    ensures Words(StripRight(s)) == Words(s)
    decreases |s|
  {
    if s != [] && IsSpace(s[|s| - 1]) {
      var p := s[..|s| - 1];
      assert s == p + [s[|s| - 1]];
      WordsAppendSpace(p, s[|s| - 1]);
      WordsStripRight(p);
    }
  }

  /** Stripping before splitting changes nothing: `s.strip().split() == s.split()`. */
  lemma WordsStrip(s: string)
    ensures Words(Strip(s)) == Words(s)
  {
    WordsStripLeft(s);
    WordsStripRight(StripLeft(s));
  }

  // ---------------------------------------------------------------- what join produces

  /** Joining words with single spaces gives normalised text. */
  lemma {:induction false} JoinNormalized(ws: seq<string>)
    requires ws != [] && AllWords(ws)
    ensures Normalized(Join(ws))
  {
    if |ws| > 1 {
      var w, j := ws[0], Join(ws[1..]);
      assert IsWord(w);
      JoinNormalized(ws[1..]);
      var t := w + " " + j;
      assert Join(ws) == t;
      forall i | 0 <= i < |t| && IsSpace(t[i])
        ensures t[i] == ' ' && i + 1 < |t| && !IsSpace(t[i + 1])
      {
        if i > |w| {
          assert t[i] == j[i - |w| - 1];
          assert t[i + 1] == j[i - |w|];
        }
      }
    } else {
      assert IsWord(ws[0]);
    }
  }

  /** Splitting words joined with single spaces gives the words back. */
  lemma {:induction false} WordsOfJoin(ws: seq<string>)
    requires AllWords(ws)
    ensures Words(Join(ws)) == ws
  {
    if ws == [] {
    } else {
      var w := ws[0];
      assert IsWord(w);
      if |ws| == 1 {
        WordLenAfterWord(w, []);
        assert w + [] == w;
        assert Words(w) == [w[..|w|]] + Words(w[|w|..]);
      } else {
        var j := Join(ws[1..]);
        var t := w + (" " + j);
        assert Join(ws) == t;
        WordLenAfterWord(w, " " + j);
        assert t[..|w|] == w;
        assert t[|w|..] == " " + j;
        assert Words(" " + j) == Words(j);
        WordsOfJoin(ws[1..]);
      }
    }
  }

  lemma StripNormalized(t: string)
    requires Normalized(t)
    ensures Strip(t) == t
  {
  }

  /** The placeholder is itself normalised text, made of the single word "none". */
  lemma PlaceholderIsOneWord()
    ensures AllWords([Placeholder]) && Join([Placeholder]) == Placeholder
  {
    assert IsWord(Placeholder);
  }

  /** What `' '.join(text.strip().split())` yields, and that the placeholder is normalised text. */
  lemma CleanedWords(text: string)
    ensures Join(Words(Strip(text))) == [] <==> AllSpace(text)
    ensures !AllSpace(text) ==> Normalized(Join(Words(Strip(text)))) && Join(Words(Strip(text))) == Join(Words(text))
    ensures Normalized(Placeholder)
  {
    WordsStrip(text);
    PlaceholderIsOneWord();
    JoinNormalized([Placeholder]);
    if !AllSpace(text) {
      JoinNormalized(Words(text));
    }
  }

  // ---------------------------------------------------------------- clean_text

  /** On text that is not blank, clean_text keeps exactly the words of the input. */
  lemma CleanTextWords(text: string)
    requires !AllSpace(text)
    ensures Words(CleanText(text)) == Words(text)
  {
    WordsOfJoin(Words(text));
  }

  /** clean_text leaves text made of single-space-joined words unchanged. */
  lemma CleanTextOfJoin(ws: seq<string>)
    requires ws != [] && AllWords(ws)
    ensures CleanText(Join(ws)) == Join(ws)
  {
    JoinNormalized(ws);
    StripNormalized(Join(ws));
    WordsOfJoin(ws);
  }

  lemma StripPaddedWord(raw: string, w: string)
    requires IsWord(w) && raw == " " + w
    ensures Strip(raw) == w
  {
    assert raw[1..] == w;
    assert StripLeft(raw) == StripLeft(w);
    assert StripLeft(w) == w;
    assert StripRight(w) == w;
  }

  lemma WordsOfWord(w: string)
    requires IsWord(w)
    ensures Words(w) == [w]
  {
    assert Join([w]) == w;
    WordsOfJoin([w]);
  }

  /** A single word after one leading space cleans to the word. */
  lemma CleanTextPaddedWord(raw: string, w: string)
    requires IsWord(w) && raw == " " + w
    ensures CleanText(raw) == w
  {
    StripPaddedWord(raw, w);
    WordsOfWord(w);
    assert Join([w]) == w;
  }

  /** clean_text is idempotent. */
  lemma CleanTextIdempotent(text: string)
    ensures CleanText(CleanText(text)) == CleanText(text)
  {
    if AllSpace(text) {
      PlaceholderIsOneWord();
      CleanTextOfJoin([Placeholder]);
    } else {
      WordsStrip(text);
      CleanTextOfJoin(Words(text));
    }
  }
}
