/** The few Python `str` operations the service relies on: `isspace`,
    `strip`, `split(sep)`, `sep.join` and prefix slicing `s[:n]`.
    Strings are sequences of code points, as Python's are. */
module PyText {

  /** Python 3's `str.isspace` table: the ASCII whitespace and separator
      controls together with the Unicode space and line/paragraph separators. */
  predicate IsWhitespace(c: char)
  {
    || ('\t' <= c <= '\r')
    || ('\U{1C}' <= c <= '\U{1F}')
    || c == ' '
    || c == '\U{85}'
    || c == '\U{A0}'
    || c == '\U{1680}'
    || ('\U{2000}' <= c <= '\U{200A}')
    || c == '\U{2028}'
    || c == '\U{2029}'
    || c == '\U{202F}'
    || c == '\U{205F}'
    || c == '\U{3000}'
  }

  predicate AllWhitespace(s: string)
  {
    forall i :: 0 <= i < |s| ==> IsWhitespace(s[i])
  }

  /** A string with no whitespace at either end: what `strip` returns. */
  predicate IsStripped(s: string)
  {
    s == [] || (!IsWhitespace(s[0]) && !IsWhitespace(s[|s| - 1]))
  }

  lemma AllWhitespaceSnoc(w: string, c: char)
    requires AllWhitespace(w) && IsWhitespace(c)
    ensures AllWhitespace(w + [c])
  {
    assert forall i :: 0 <= i < |w| ==> (w + [c])[i] == w[i];
  }

  lemma AllWhitespaceCons(c: char, w: string)
    requires IsWhitespace(c) && AllWhitespace(w)
    ensures AllWhitespace([c] + w)
  {
    assert forall i :: 1 <= i < |w| + 1 ==> ([c] + w)[i] == w[i - 1];
  }

  /** Regrouping a three-part concatenation; spelled out for the solver. */
  lemma Reassociate<T>(a: seq<T>, b: seq<T>, c: seq<T>, s: seq<T>)
    requires s == a + b + c
    ensures s == a + (b + c)
  {
  }

  /** A non-empty sequence is its front followed by its last element. */
  lemma Snoc<T>(s: seq<T>)
    requires |s| > 0
    ensures s == s[..|s| - 1] + [s[|s| - 1]]
  {
  }

  /** `s.rstrip()`: drops the trailing whitespace run. */
  function TrimRight(s: string): (r: string)
    ensures |r| <= |s| && r == s[..|r|]
    ensures AllWhitespace(s[|r|..])
    ensures r == [] || !IsWhitespace(r[|r| - 1])
  {
    if |s| > 0 && IsWhitespace(s[|s| - 1]) then
      var init := s[..|s| - 1];
      var r := TrimRight(init);
      assert init[..|r|] == s[..|r|];
      assert s[|r|..] == init[|r|..] + [s[|s| - 1]];
      AllWhitespaceSnoc(init[|r|..], s[|s| - 1]);
      r
    else
      assert s[|s|..] == [];
      s
  }

  /** `s.strip()`: skip the leading whitespace run, then drop the trailing
      one. The result is empty exactly when the input is all whitespace. */
  function Strip(s: string): (r: string)
    ensures IsStripped(r)
    ensures |r| <= |s|
    ensures r == [] <==> AllWhitespace(s)
    decreases |s|
  {
    if |s| > 0 && IsWhitespace(s[0]) then
      assert AllWhitespace(s) <==> AllWhitespace(s[1..]) by {
        if AllWhitespace(s[1..]) {
          forall i | 1 <= i < |s| ensures IsWhitespace(s[i]) {
            assert s[i] == s[1..][i - 1];
          }
        }
      }
      Strip(s[1..])
    else
      var r := TrimRight(s);
      assert r != [] ==> r[0] == s[0];
      assert r == [] ==> s[|r|..] == s;
      r
  }

  /** Where the stripped text sits in its input: after `k` characters of
      leading whitespace and before a run of trailing whitespace. */
  lemma {:induction false} StripPosition(s: string) returns (k: nat)
    ensures k + |Strip(s)| <= |s|
    ensures s == s[..k] + Strip(s) + s[k + |Strip(s)|..]
    ensures AllWhitespace(s[..k]) && AllWhitespace(s[k + |Strip(s)|..])
    decreases |s|
  {
    var r := Strip(s);
    if |s| > 0 && IsWhitespace(s[0]) {
      var j := StripPosition(s[1..]);
      assert Strip(s[1..]) == r;
      StripPositionStep(s, r, j);
      k := j + 1;
    } else {
      k := 0;
      assert r == TrimRight(s);
      assert s == r + s[|r|..];
      assert s[..0] == [];
    }
  }

  lemma StripPositionStep(s: string, r: string, j: nat)
    requires |s| > 0 && IsWhitespace(s[0])
    requires var t := s[1..];
      j + |r| <= |t| && t == t[..j] + r + t[j + |r|..]
      && AllWhitespace(t[..j]) && AllWhitespace(t[j + |r|..])
    ensures j + 1 + |r| <= |s|
    ensures s == s[..j + 1] + r + s[j + 1 + |r|..]
    ensures AllWhitespace(s[..j + 1]) && AllWhitespace(s[j + 1 + |r|..])
  {
    var t := s[1..];
    assert s[..j + 1] == [s[0]] + t[..j];
    assert s[j + 1 + |r|..] == t[j + |r|..];
    AllWhitespaceCons(s[0], t[..j]);
    assert s == [s[0]] + t;
  }

  /** Python `s[:n]` for a non-negative `n`. */
  function Take(s: string, n: nat): (r: string)
    ensures |r| == if n <= |s| then n else |s|
    ensures r <= s
  {
    if n <= |s| then s[..n] else s
  }

  /** `sep.join(parts)`. */
  function Join(parts: seq<string>, sep: char): (s: string)
    ensures |parts| == 1 ==> s == parts[0]
  {
    if |parts| == 0 then []
    else if |parts| == 1 then parts[0]
    else parts[0] + [sep] + Join(parts[1..], sep)
  }

  /** `s.split(sep)` with an explicit one-character separator: the maximal
      separator-free pieces between separators, so there is always at
      least one piece (the empty string splits into `[""]`). */
  function Split(s: string, sep: char): (parts: seq<string>)
    ensures |parts| >= 1
    ensures forall i :: 0 <= i < |parts| ==> sep !in parts[i]
    decreases |s|
  {
    if |s| == 0 then [[]]
    else
      var rest := Split(s[1..], sep);
      if s[0] == sep then [[]] + rest
      else [[s[0]] + rest[0]] + rest[1..]
  }

  // ---------------------------------------------------------------------
  // Strip

  /** A string already stripped is left alone, so `strip` is idempotent. */
  lemma StripFixesStripped(s: string)
    requires IsStripped(s)
    ensures Strip(s) == s
  {
    assert TrimRight(s) == s;
  }

  lemma StripIdempotent(s: string)
    ensures Strip(Strip(s)) == Strip(s)
  {
    StripFixesStripped(Strip(s));
  }

  /** Whitespace in front of a string does not change what `strip` keeps. */
  lemma StripPrependWhitespace(c: char, s: string)
    requires IsWhitespace(c)
    ensures Strip([c] + s) == Strip(s)
  {
    assert ([c] + s)[1..] == s;
  }

  /** Whitespace after a string does not change what `strip` keeps. */
  lemma {:induction false} StripAppendWhitespace(s: string, c: char)
    requires IsWhitespace(c)
    ensures Strip(s + [c]) == Strip(s)
    decreases |s|
  {
    assert (s + [c])[..|s|] == s;
    if |s| == 0 {
      assert s + [c] == [c];
      assert ([c])[1..] == [];
    } else {
      assert (s + [c])[0] == s[0];
      if IsWhitespace(s[0]) {
        assert (s + [c])[1..] == s[1..] + [c];
        StripAppendWhitespace(s[1..], c);
      }
    }
  }

  /** Whatever `strip` keeps is a piece of the input, so a character absent
      from the input is absent from the result. */
  lemma StripKeepsNoNewChars(s: string, c: char)
    requires c !in s
    ensures c !in Strip(s)
  {
    var k := StripPosition(s);
    forall i | 0 <= i < |Strip(s)| ensures Strip(s)[i] != c {
      assert Strip(s)[i] == s[k + i];
    }
  }

  // ---------------------------------------------------------------------
  // Split and Join

  /** Splitting a string and joining the pieces with the same separator
      gives the string back. */
  lemma {:induction false} JoinSplit(s: string, sep: char)
    ensures Join(Split(s, sep), sep) == s
    decreases |s|
  {
    if |s| > 0 {
      var rest := Split(s[1..], sep);
      JoinSplit(s[1..], sep);
      if s[0] == sep {
        assert Join([[]] + rest, sep) == [] + [sep] + Join(rest, sep);
      } else {
        var parts := [[s[0]] + rest[0]] + rest[1..];
        if |rest| == 1 {
          assert Join(parts, sep) == [s[0]] + rest[0];
        } else {
          assert parts[1..] == rest[1..];
          assert Join(rest, sep) == rest[0] + [sep] + Join(rest[1..], sep);
          assert Join(parts, sep) == [s[0]] + rest[0] + [sep] + Join(rest[1..], sep);
        }
        assert s == [s[0]] + s[1..];
      }
    }
  }

  /** Splitting `x + rest` where `x` holds no separator glues `x` onto the
      first piece of `rest`. */
  lemma {:induction false} SplitSeparatorFreePrefix(x: string, rest: string, sep: char)
    requires sep !in x
    ensures Split(x + rest, sep) ==
      [x + Split(rest, sep)[0]] + Split(rest, sep)[1..]
    decreases |x|
  {
    if |x| > 0 {
      SplitSeparatorFreePrefix(x[1..], rest, sep);
      assert (x + rest)[0] == x[0];
      assert (x + rest)[1..] == x[1..] + rest;
      assert [x[0]] + (x[1..] + Split(rest, sep)[0]) == x + Split(rest, sep)[0];
    } else {
      var p := Split(rest, sep);
      assert x + rest == rest;
      assert x + p[0] == p[0];
      assert [p[0]] + p[1..] == p;
    }
  }

  /** Joining separator-free pieces and splitting again gives the pieces back. */
  lemma {:induction false} SplitJoin(parts: seq<string>, sep: char)
    requires |parts| >= 1
    requires forall i :: 0 <= i < |parts| ==> sep !in parts[i]
    ensures Split(Join(parts, sep), sep) == parts
    decreases |parts|
  {
    if |parts| == 1 {
      SplitSeparatorFreePrefix(parts[0], [], sep);
      assert parts[0] + [] == parts[0];
    } else {
      var tail := Join(parts[1..], sep);
      SplitJoin(parts[1..], sep);
      assert ([sep] + tail)[1..] == tail;
      assert Split([sep] + tail, sep) == [[]] + parts[1..];
      assert parts[0] + [sep] + tail == parts[0] + ([sep] + tail);
      SplitSeparatorFreePrefix(parts[0], [sep] + tail, sep);
      assert parts[0] + [] == parts[0];
    }
  }

  /** The pieces after one more character: a separator opens a new empty
      piece, any other character extends the last piece. */
  function Extend(pieces: seq<string>, c: char, sep: char): (r: seq<string>)
    requires |pieces| >= 1
  {
    if c == sep then pieces + [[]]
    else pieces[..|pieces| - 1] + [pieces[|pieces| - 1] + [c]]
  }

  /** Glues character `h` onto the first piece, as `Split` does for a
      leading non-separator. */
  function GlueFirst(h: char, pieces: seq<string>): seq<string>
    requires |pieces| >= 1
  {
    [[h] + pieces[0]] + pieces[1..]
  }

  lemma ExtendAfterEmptyPiece(pieces: seq<string>, c: char, sep: char)
    requires |pieces| >= 1
    ensures Extend([[]] + pieces, c, sep) == [[]] + Extend(pieces, c, sep)
  {
    var p := [[]] + pieces;
    if c != sep {
      assert p[..|p| - 1] == [[]] + pieces[..|pieces| - 1];
    }
  }

  lemma ExtendGlueFirst(h: char, pieces: seq<string>, c: char, sep: char)
    requires |pieces| >= 1
    ensures Extend(GlueFirst(h, pieces), c, sep) == GlueFirst(h, Extend(pieces, c, sep))
  {
    var g := GlueFirst(h, pieces);
    var e := Extend(pieces, c, sep);
    if c == sep {
      assert e[1..] == pieces[1..] + [[]];
    } else if |pieces| == 1 {
      assert e == [pieces[0] + [c]];
      assert [h] + (pieces[0] + [c]) == ([h] + pieces[0]) + [c];
    } else {
      assert e[0] == pieces[0];
      assert e[1..] == pieces[1..|pieces| - 1] + [pieces[|pieces| - 1] + [c]];
      assert g[..|g| - 1] == [[h] + pieces[0]] + pieces[1..|pieces| - 1];
    }
  }

  /** The effect on `split` of appending one character. */
  lemma {:induction false} SplitAppend(s: string, c: char, sep: char)
    ensures Split(s + [c], sep) == Extend(Split(s, sep), c, sep)
    decreases |s|
  {
    if |s| == 0 {
      assert s + [c] == [c];
      assert ([c])[1..] == [];
      assert Split([], sep) == [[]];
      assert [c] + [] == [c];
    } else {
      var t := s[1..];
      assert (s + [c])[0] == s[0];
      assert (s + [c])[1..] == t + [c];
      SplitAppend(t, c, sep);
      if s[0] == sep {
        ExtendAfterEmptyPiece(Split(t, sep), c, sep);
      } else {
        ExtendGlueFirst(s[0], Split(t, sep), c, sep);
      }
    }
  }

  /** The first piece of `s.split(sep)` is the prefix of `s` before its first
      separator, or all of `s` when there is none. */
  lemma {:induction false} FirstPieceIsPrefixBeforeSeparator(s: string, sep: char)
    ensures var h := Split(s, sep)[0];
      && h <= s
      && sep !in h
      && (|h| == |s| || s[|h|] == sep)
    decreases |s|
  {
    if |s| > 0 {
      FirstPieceIsPrefixBeforeSeparator(s[1..], sep);
    }
  }
}
