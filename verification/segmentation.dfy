/** Line-based segmentation of a completion: split on newlines, strip each
    line, drop the blank ones. Both revisions of the service cut text this
    way: the Flask revision to make one subtask per line, the FastAPI
    revision to make one rich-text paragraph per line. */
module Segmentation {
  import opened PyText

  const Newline: char := '\n'

  /** `[l.strip() for l in lines if l.strip()]`. */
  function Clean(lines: seq<string>): (kept: seq<string>)
    ensures |kept| <= |lines|
    ensures forall i :: 0 <= i < |kept| ==> kept[i] != [] && IsStripped(kept[i])
  {
    if |lines| == 0 then []
    else
      var head := Strip(lines[0]);
      (if head == [] then [] else [head]) + Clean(lines[1..])
  }

  /** The stripped non-blank lines of `text`, in order. */
  function NonBlankLines(text: string): (lines: seq<string>)
    ensures forall i :: 0 <= i < |lines| ==> lines[i] != [] && IsStripped(lines[i])
    ensures forall i :: 0 <= i < |lines| ==> Newline !in lines[i]
  {
    var parts := Split(text, Newline);
    CleanAvoids(parts, Newline);
    Clean(parts)
  }

  /** Every line, stripped. */
  function StripAll(lines: seq<string>): (stripped: seq<string>)
    ensures |stripped| == |lines|
    ensures forall i :: 0 <= i < |lines| ==> stripped[i] == Strip(lines[i])
  {
    seq(|lines|, i requires 0 <= i < |lines| => Strip(lines[i]))
  }

  /** `kept` is an order-preserving selection from `stripped`, witnessed by
      the positions `idx` it came from, that takes exactly the non-empty
      entries. */
  ghost predicate SelectsNonEmpty(stripped: seq<string>, kept: seq<string>, idx: seq<nat>)
  {
    && |idx| == |kept|
    && (forall k :: 0 <= k < |idx| ==> idx[k] < |stripped| && kept[k] == stripped[idx[k]])
    && (forall k, m :: 0 <= k < m < |idx| ==> idx[k] < idx[m])
    && (forall i :: 0 <= i < |stripped| ==> (i in idx <==> stripped[i] != []))
  }

  /** The positions of the lines `Clean` keeps; its contract is the
      independent description of `Clean`: it selects, in order, exactly the
      lines that are not blank, each one stripped. */
  function KeptIndices(lines: seq<string>): (idx: seq<nat>)
    ensures SelectsNonEmpty(StripAll(lines), Clean(lines), idx)
  {
    if |lines| == 0 then []
    else
      var n := |lines| - 1;
      var pre := lines[..n];
      var init := KeptIndices(pre);
      var last := Strip(lines[n]);
      var idx := init + (if last == [] then [] else [n]);
      CleanSnoc(lines);
      StripAllSnoc(lines);
      SelectsNonEmptySnoc(StripAll(pre), last, Clean(pre), init);
      idx
  }

  lemma CleanSnoc(lines: seq<string>)
    requires |lines| > 0
    ensures var last := Strip(lines[|lines| - 1]);
      Clean(lines) == Clean(lines[..|lines| - 1]) + (if last == [] then [] else [last])
  {
    var n := |lines| - 1;
    Snoc(lines);
    CleanConcat(lines[..n], [lines[n]]);
    CleanSingle(lines[n]);
  }

  lemma StripAllSnoc(lines: seq<string>)
    requires |lines| > 0
    ensures StripAll(lines) == StripAll(lines[..|lines| - 1]) + [Strip(lines[|lines| - 1])]
  {
  }

  lemma CleanSingle(line: string)
    ensures Clean([line]) == if Strip(line) == [] then [] else [Strip(line)]
  {
    assert ([line])[1..] == [];
  }

  /** Selecting from one more entry at the end. */
  lemma SelectsNonEmptySnoc(stripped: seq<string>, s: string, front: seq<string>, init: seq<nat>)
    requires SelectsNonEmpty(stripped, front, init)
    ensures SelectsNonEmpty(stripped + [s], front + (if s == [] then [] else [s]),
                            init + (if s == [] then [] else [|stripped|]))
  {
    var all := stripped + [s];
    var kept := front + (if s == [] then [] else [s]);
    var idx := init + (if s == [] then [] else [|stripped|]);
    forall k | 0 <= k < |idx| ensures idx[k] < |all| && kept[k] == all[idx[k]] {
      if k < |init| {
        assert idx[k] == init[k] && kept[k] == front[k];
        assert all[init[k]] == stripped[init[k]];
      } else {
        assert idx[k] == |stripped| && kept[k] == s;
      }
    }
    forall i | 0 <= i < |all| ensures i in idx <==> all[i] != [] {
      if i < |stripped| {
        assert all[i] == stripped[i];
        assert i in idx <==> i in init;
      }
    }
  }

  lemma {:induction false} CleanAvoids(lines: seq<string>, c: char)
    requires forall i :: 0 <= i < |lines| ==> c !in lines[i]
    ensures forall i :: 0 <= i < |Clean(lines)| ==> c !in Clean(lines)[i]
    decreases |lines|
  {
    if |lines| > 0 {
      StripKeepsNoNewChars(lines[0], c);
      CleanAvoids(lines[1..], c);
    }
  }

  /** Cleaning distributes over concatenation of line lists. */
  lemma {:induction false} CleanConcat(a: seq<string>, b: seq<string>)
    ensures Clean(a + b) == Clean(a) + Clean(b)
    decreases |a|
  {
    if |a| == 0 {
      assert a + b == b;
    } else {
      assert (a + b)[0] == a[0];
      assert (a + b)[1..] == a[1..] + b;
      CleanConcat(a[1..], b);
    }
  }

  /** Lines that are already stripped and non-blank survive cleaning unchanged. */
  lemma {:induction false} CleanFixesCleanLines(lines: seq<string>)
    requires forall i :: 0 <= i < |lines| ==> lines[i] != [] && IsStripped(lines[i])
    ensures Clean(lines) == lines
    decreases |lines|
  {
    if |lines| > 0 {
      StripFixesStripped(lines[0]);
      CleanFixesCleanLines(lines[1..]);
    }
  }

  /** Segmenting is idempotent: joining the segments with newlines and
      segmenting again yields the same segments. */
  lemma NonBlankLinesIdempotent(text: string)
    ensures NonBlankLines(Join(NonBlankLines(text), Newline)) == NonBlankLines(text)
  {
    var lines := NonBlankLines(text);
    if |lines| == 0 {
      assert Split([], Newline) == [[]];
      assert Clean([[]]) == [];
    } else {
      SplitJoin(lines, Newline);
      CleanFixesCleanLines(lines);
    }
  }

  /** One leading whitespace character (a newline included) never changes
      the segments. */
  lemma NonBlankLinesPrependOne(c: char, s: string)
    requires IsWhitespace(c)
    ensures NonBlankLines([c] + s) == NonBlankLines(s)
  {
    var rest := Split(s, Newline);
    assert ([c] + s)[0] == c;
    assert ([c] + s)[1..] == s;
    if c == Newline {
      assert Split([c] + s, Newline) == [[]] + rest;
      assert ([[]] + rest)[1..] == rest;
    } else {
      var parts := [[c] + rest[0]] + rest[1..];
      assert Split([c] + s, Newline) == parts;
      StripPrependWhitespace(c, rest[0]);
      assert parts[1..] == rest[1..];
    }
  }

  /** One trailing whitespace character never changes the segments. */
  lemma NonBlankLinesAppendOne(s: string, c: char)
    requires IsWhitespace(c)
    ensures NonBlankLines(s + [c]) == NonBlankLines(s)
  {
    var p := Split(s, Newline);
    SplitAppend(s, c, Newline);
    assert Split(s + [c], Newline) ==
      if c == Newline then p + [[]] else p[..|p| - 1] + [p[|p| - 1] + [c]];
    assert p == p[..|p| - 1] + [p[|p| - 1]];
    CleanConcat(p[..|p| - 1], [p[|p| - 1]]);
    if c == Newline {
      CleanConcat(p, [[]]);
      assert Clean([[]]) == [];
    } else {
      CleanConcat(p[..|p| - 1], [p[|p| - 1] + [c]]);
      StripAppendWhitespace(p[|p| - 1], c);
    }
  }

  lemma {:induction false} NonBlankLinesPrependWhitespace(w: string, s: string)
    requires AllWhitespace(w)
    ensures NonBlankLines(w + s) == NonBlankLines(s)
    decreases |w|
  {
    if |w| > 0 {
      assert w + s == [w[0]] + (w[1..] + s);
      NonBlankLinesPrependOne(w[0], w[1..] + s);
      NonBlankLinesPrependWhitespace(w[1..], s);
    } else {
      assert w + s == s;
    }
  }

  lemma {:induction false} NonBlankLinesAppendWhitespace(s: string, w: string)
    requires AllWhitespace(w)
    ensures NonBlankLines(s + w) == NonBlankLines(s)
    decreases |w|
  {
    if |w| > 0 {
      assert s + w == (s + [w[0]]) + w[1..];
      NonBlankLinesAppendWhitespace(s + [w[0]], w[1..]);
      NonBlankLinesAppendOne(s, w[0]);
    } else {
      assert s + w == s;
    }
  }

  /** Stripping the whole text before splitting it changes nothing: the
      outer whitespace only ever adds blank lines or pads the first and last
      line, and those are stripped or dropped anyway. */
  lemma NonBlankLinesIgnoresOuterWhitespace(text: string)
    ensures NonBlankLines(Strip(text)) == NonBlankLines(text)
  {
    var k := StripPosition(text);
    var core := Strip(text);
    var lead := text[..k];
    var trail := text[k + |core|..];
    Reassociate(lead, core, trail, text);
    NonBlankLinesPrependWhitespace(lead, core + trail);
    NonBlankLinesAppendWhitespace(core, trail);
  }
}
