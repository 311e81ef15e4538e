/** Line wrapping of one-line strings (module `goripy.str`). */
module StrUtils {
  import opened Results
  import opened Seqs
  import opened Strings

  // ---- add_newlines ----

  /** `range(start, stop, step)` for a positive step. */
  function RangeStep(start: int, stop: int, step: int): (r: seq<int>)
    requires step >= 1
    ensures r != [] <==> start < stop
    ensures r != [] ==> r[0] == start && r[|r| - 1] < stop && r[|r| - 1] + step >= stop
    ensures forall i :: 0 <= i < |r| ==> start <= r[i] < stop
    ensures forall i :: 0 <= i < |r| - 1 ==> r[i + 1] == r[i] + step
    ensures forall i, j :: 0 <= i <= j < |r| ==> r[i] <= r[j]
    decreases stop - start
  {
    if start >= stop then []
    else
      var rest := RangeStep(start + step, stop, step);
      assert rest != [] ==> rest[0] == start + step;
      [start] + rest
  }

  /** Cut points into `s`, in order and within it. */
  predicate CutPoints(s: string, b: seq<int>)
  {
    (forall i :: 0 <= i < |b| ==> 0 <= b[i] <= |s|) &&
    (forall i, j :: 0 <= i <= j < |b| ==> b[i] <= b[j])
  }

  /** `[s[b[i]:b[i + 1]] for i ...]`, the slices between consecutive cut points. */
  function Slices(s: string, b: seq<int>): (r: seq<string>)
    requires CutPoints(s, b)
    ensures |r| == if b == [] then 0 else |b| - 1
    ensures forall i :: 0 <= i < |r| ==> r[i] == s[b[i]..b[i + 1]]
  {
    if |b| <= 1 then [] else seq(|b| - 1, i requires 0 <= i < |b| - 1 => s[b[i]..b[i + 1]])
  }

  /** The slices between cut points put back together span the first to the last cut. */
  lemma {:induction false} FlattenSlices(s: string, b: seq<int>)
    requires CutPoints(s, b) && |b| >= 1
    ensures Flatten(Slices(s, b)) == s[b[0]..b[|b| - 1]]
    decreases |b|
  {
    if |b| >= 2 {
      var m := |b| - 1;
      var front := SlicesFront(s, b);
      FlattenSlices(s, front);
      AdjacentSlices(s, b[0], b[m - 1], b[m]);
    }
  }

  /** The slices of all cut points are those of all but the last, then one more. */
  lemma SlicesFront(s: string, b: seq<int>) returns (front: seq<int>)
    requires CutPoints(s, b) && |b| >= 2
    ensures front == b[..|b| - 1] && CutPoints(s, front) && |front| >= 1 && front[0] == b[0]
    ensures Flatten(Slices(s, b)) == Flatten(Slices(s, front)) + s[b[|b| - 2]..b[|b| - 1]]
  {
    var m := |b| - 1;
    front := b[..m];
    var sl, sf := Slices(s, b), Slices(s, front);
    assert sl[..m - 1] == sf;
    assert sl[m - 1] == s[b[m - 1]..b[m]];
  }

  /** The start indices of `add_newlines` followed by `len(orig_str)`. */
  function LineBounds(n: nat, lineLen: int): (b: seq<int>)
    requires n >= 1 && lineLen >= 1
  {
    RangeStep(0, n, lineLen) + [n]
  }

  /** `add_newlines(orig_str, line_len)`. A missing `line_len` reaches
      `range` as None (TypeError), a zero step is a ValueError, and an empty
      string or a negative step gives an empty index list, whose `[-1]` is an
      IndexError. Otherwise the last start index is always below the length,
      so the length is appended. */
  function AddNewlines(s: string, lineLen: Option<int>): (r: Result<string>)
  {
    match lineLen
    case None => Err(TypeError)
    case Some(l) =>
      if l == 0 then Err(ValueError)
      else if l < 0 || |s| == 0 then Err(IndexError)
      else
        var b := LineBounds(|s|, l);
        assert CutPoints(s, b);
        Ok(Join(Slices(s, b), "\n"))
  }

  /** The lines `add_newlines` joins. */
  function Lines(s: string, lineLen: int): seq<string>
    requires |s| >= 1 && lineLen >= 1
  {
    var b := LineBounds(|s|, lineLen);
    assert CutPoints(s, b);
    Slices(s, b)
  }

  /** The lines partition the input in order; all but the last have exactly
      `line_len` characters and the last has between 1 and `line_len`. */
  lemma LinesSpec(s: string, lineLen: int)
    requires |s| >= 1 && lineLen >= 1
    ensures AddNewlines(s, Some(lineLen)) == Ok(Join(Lines(s, lineLen), "\n"))
    ensures Flatten(Lines(s, lineLen)) == s
    ensures |Lines(s, lineLen)| >= 1
    ensures forall i :: 0 <= i < |Lines(s, lineLen)| - 1 ==> |Lines(s, lineLen)[i]| == lineLen
    ensures 1 <= |Lines(s, lineLen)[|Lines(s, lineLen)| - 1]| <= lineLen
  {
    var b := LineBounds(|s|, lineLen);
    LineBoundsCut(s, lineLen);
    assert Lines(s, lineLen) == Slices(s, b);
    assert Flatten(Slices(s, b)) == s by {
      FlattenSlices(s, b);
      assert s[0..|s|] == s;
    }
    LineLengths(s, lineLen, b);
  }

  /** The line bounds are cut points from 0 to the length of the input. */
  lemma LineBoundsCut(s: string, lineLen: int)
    requires |s| >= 1 && lineLen >= 1
    ensures var b := LineBounds(|s|, lineLen);
      CutPoints(s, b) && |b| >= 2 && b[0] == 0 && b[|b| - 1] == |s|
  {
  }

  lemma LineLengths(s: string, lineLen: int, b: seq<int>)
    requires |s| >= 1 && lineLen >= 1 && b == LineBounds(|s|, lineLen) && CutPoints(s, b)
    ensures |Slices(s, b)| >= 1
    ensures forall i :: 0 <= i < |Slices(s, b)| - 1 ==> |Slices(s, b)[i]| == lineLen
    ensures 1 <= |Slices(s, b)[|Slices(s, b)| - 1]| <= lineLen
  {
    var r := RangeStep(0, |s|, lineLen);
    var ls := Slices(s, b);
    assert |ls| == |r|;
    forall i | 0 <= i < |ls| - 1 ensures |ls[i]| == lineLen {
      assert b[i] == r[i] && b[i + 1] == r[i + 1];
    }
    var k := |r| - 1;
    assert b[k] == r[k] && b[k + 1] == |s|;
    assert |ls[k]| == |s| - r[k];
  }

  /** The error cases of `add_newlines`. */
  lemma AddNewlinesErrors(s: string, lineLen: Option<int>)
    ensures AddNewlines(s, lineLen).Err? <==> lineLen.None? || lineLen.value <= 0 || |s| == 0
    ensures lineLen.None? ==> AddNewlines(s, lineLen) == Err(TypeError)
    ensures lineLen == Some(0) ==> AddNewlines(s, lineLen) == Err(ValueError)
    ensures lineLen.Some? && lineLen.value != 0 && (lineLen.value < 0 || |s| == 0) ==>
      AddNewlines(s, lineLen) == Err(IndexError)
  {
  }

  /** Taking the inserted newlines out of the result gives the input back,
      for an input with no newline of its own. */
  lemma AddNewlinesRoundTrip(s: string, lineLen: int)
    requires |s| >= 1 && lineLen >= 1 && Avoids(s, '\n')
    ensures AddNewlines(s, Some(lineLen)).Ok?
    ensures Remove(AddNewlines(s, Some(lineLen)).value, '\n') == s
  {
    var b := LineBounds(|s|, lineLen);
    LineBoundsCut(s, lineLen);
    SlicesAvoid(s, b, '\n');
    RemoveJoin(Slices(s, b), '\n');
    LinesSpec(s, lineLen);
  }

  lemma SlicesAvoid(s: string, b: seq<int>, c: char)
    requires CutPoints(s, b) && Avoids(s, c)
    ensures forall i :: 0 <= i < |Slices(s, b)| ==> Avoids(Slices(s, b)[i], c)
  {
    var ls := Slices(s, b);
    forall i | 0 <= i < |ls| ensures Avoids(ls[i], c) {
      var p := ls[i];
      assert p == s[b[i]..b[i + 1]];
      forall k | 0 <= k < |p| ensures p[k] != c {
        assert p[k] == s[b[i] + k];
      }
    }
  }

  // ---- add_newlines_whitespace ----

  /** A length limit; None stands for `float("inf")`. */
  predicate Exceeds(n: int, limit: Option<int>)
  {
    limit.Some? && n > limit.value
  }

  predicate Reaches(n: int, limit: Option<int>)
  {
    limit.Some? && n >= limit.value
  }

  /** `s[:-1]`. */
  function DropLast(s: string): (r: string)
    ensures |r| == if s == [] then 0 else |s| - 1
    ensures r == s[..|r|]
  {
    if s == [] then [] else s[..|s| - 1]
  }

  /** The loop state: `new_str` and `curr_line_len`. */
  datatype Wrap = Wrap(text: string, lineLen: int)

  /** One iteration of the token loop. */
  function Step(w: Wrap, tkn: string, minLen: Option<int>, maxLen: Option<int>): Wrap
  {
    if Exceeds(w.lineLen + |tkn|, maxLen) then
      Wrap(DropLast(w.text) + "\n" + tkn + " ", |tkn| + 1)
    else
      var text, n := w.text + tkn + " ", w.lineLen + |tkn| + 1;
      if Reaches(n, minLen) then Wrap(DropLast(text) + "\n", 0) else Wrap(text, n)
  }

  /** The state after the given tokens, from `("", 0)`. */
  function WrapAll(tkns: seq<string>, minLen: Option<int>, maxLen: Option<int>): Wrap
  {
    if tkns == [] then Wrap("", 0)
    else Step(WrapAll(tkns[..|tkns| - 1], minLen, maxLen), tkns[|tkns| - 1], minLen, maxLen)
  }

  /** `add_newlines_whitespace(orig_str, min_len, max_len)`. */
  method AddNewlinesWhitespace(s: string, minLen: Option<int>, maxLen: Option<int>) returns (r: string)
    ensures r == DropLast(WrapAll(Words(s), minLen, maxLen).text)
  {
    var tkns := Words(s);
    var newStr := "";
    var currLineLen := 0;
    for k := 0 to |tkns|
      invariant Wrap(newStr, currLineLen) == WrapAll(tkns[..k], minLen, maxLen)
    {
      var tkn := tkns[k];
      assert tkns[..k + 1][..k] == tkns[..k];
      ghost var before := Wrap(newStr, currLineLen);
      assert WrapAll(tkns[..k + 1], minLen, maxLen) == Step(before, tkn, minLen, maxLen);
      StepBreaks(before, tkn, minLen, maxLen);
      if maxLen.Some? && currLineLen + |tkn| > maxLen.value {
        newStr := DropLast(newStr) + "\n";
        newStr := newStr + tkn + " ";
        currLineLen := |tkn| + 1;
      } else {
        newStr := newStr + tkn + " ";
        currLineLen := currLineLen + |tkn| + 1;
        if minLen.Some? && currLineLen >= minLen.value {
          newStr := DropLast(newStr) + "\n";
          currLineLen := 0;
        }
      }
    }
    assert tkns[..|tkns|] == tkns;
    r := DropLast(newStr);
  }

  /** The text is empty or ends in whitespace, and splits into the tokens so far. */
  predicate WrapInvariant(w: Wrap, tkns: seq<string>)
  {
    (w.text == [] || IsSpace(w.text[|w.text| - 1])) && Words(w.text) == tkns
  }

  /** Dropping a final whitespace character, or replacing it by a newline,
      keeps the words. */
  lemma WordsDropLast(t: string)
    requires t == [] || IsSpace(t[|t| - 1])
    ensures Words(DropLast(t)) == Words(t)
    ensures Words(DropLast(t) + "\n") == Words(t)
  {
    var d := DropLast(t);
    assert Words(d + "\n") == Words(d) by {
      WordsAppend(d, "\n");
      WordsOfSpace('\n');
    }
    if t != [] {
      var c := t[|t| - 1];
      SplitLast(t);
      assert Words(d + [c]) == Words(d) by {
        WordsAppend(d, [c]);
        WordsOfSpace(c);
      }
    }
  }

  /** Appending a token and a space adds that token. */
  lemma WordsAddToken(t: string, tkn: string)
    requires t == [] || IsSpace(t[|t| - 1])
    requires |tkn| >= 1 && HasNoSpace(tkn)
    ensures Words(t + tkn + " ") == Words(t) + [tkn]
  {
    WordsOfWord(tkn);
    WordsOfSpace(' ');
    WordsAppend(tkn, " ");
    WordsAppend(t, tkn + " ");
    assert t + tkn + " " == t + (tkn + " ");
  }

  lemma {:induction false} WrapAllWords(tkns: seq<string>, minLen: Option<int>, maxLen: Option<int>)
    requires forall i :: 0 <= i < |tkns| ==> |tkns[i]| >= 1 && HasNoSpace(tkns[i])
    ensures WrapInvariant(WrapAll(tkns, minLen, maxLen), tkns)
    decreases |tkns|
  {
    if tkns != [] {
      var front, tkn := tkns[..|tkns| - 1], tkns[|tkns| - 1];
      WrapAllWords(front, minLen, maxLen);
      StepWords(WrapAll(front, minLen, maxLen), front, tkn, minLen, maxLen);
      assert front + [tkn] == tkns;
    }
  }

  /** One step keeps the invariant, adding the token. */
  lemma StepWords(w: Wrap, front: seq<string>, tkn: string, minLen: Option<int>, maxLen: Option<int>)
    requires WrapInvariant(w, front) && |tkn| >= 1 && HasNoSpace(tkn)
    ensures WrapInvariant(Step(w, tkn, minLen, maxLen), front + [tkn])
  {
    if Exceeds(w.lineLen + |tkn|, maxLen) {
      WordsDropLast(w.text);
      var t := DropLast(w.text) + "\n";
      assert t[|t| - 1] == '\n';
      WordsAddToken(t, tkn);
    } else {
      WordsAddToken(w.text, tkn);
      var text := w.text + tkn + " ";
      if Reaches(w.lineLen + |tkn| + 1, minLen) {
        WordsDropLast(text);
        var t := DropLast(text) + "\n";
        assert t[|t| - 1] == '\n';
      }
    }
  }

  /** The output splits into exactly the input's whitespace-separated tokens. */
  lemma WrapKeepsWords(s: string, minLen: Option<int>, maxLen: Option<int>)
    ensures Words(DropLast(WrapAll(Words(s), minLen, maxLen).text)) == Words(s)
  {
    WrapAllWords(Words(s), minLen, maxLen);
    WordsDropLast(WrapAll(Words(s), minLen, maxLen).text);
  }

  lemma {:induction false} JoinSnoc(ps: seq<string>, t: string, sep: string)
    requires ps != []
    ensures Join(ps + [t], sep) == Join(ps, sep) + sep + t
    decreases |ps|
  {
    if |ps| == 1 {
      assert (ps + [t])[1..] == [t];
    } else {
      assert (ps + [t])[1..] == ps[1..] + [t];
      JoinSnoc(ps[1..], t, sep);
    }
  }

  /** With no limits the loop only appends `tkn + " "`. */
  lemma {:induction false} WrapAllUnlimited(tkns: seq<string>)
    ensures WrapAll(tkns, None, None).text == if tkns == [] then "" else Join(tkns, " ") + " "
    decreases |tkns|
  {
    if tkns != [] {
      var front := tkns[..|tkns| - 1];
      WrapAllUnlimited(front);
      assert front + [tkns[|tkns| - 1]] == tkns;
      if front != [] {
        JoinSnoc(front, tkns[|tkns| - 1], " ");
      }
    }
  }

  /** With both limits None the output is the tokens joined by single spaces. */
  lemma UnlimitedJoins(s: string)
    ensures DropLast(WrapAll(Words(s), None, None).text) == Join(Words(s), " ")
  {
    WrapAllUnlimited(Words(s));
  }

  /** The two breaking rules: a token that would pass `max_len` starts a new
      line, and otherwise a line that reaches `min_len` ends after the token. */
  lemma StepBreaks(w: Wrap, tkn: string, minLen: Option<int>, maxLen: Option<int>)
    ensures Exceeds(w.lineLen + |tkn|, maxLen) ==>
      Step(w, tkn, minLen, maxLen) == Wrap(DropLast(w.text) + "\n" + tkn + " ", |tkn| + 1)
    ensures !Exceeds(w.lineLen + |tkn|, maxLen) && Reaches(w.lineLen + |tkn| + 1, minLen) ==>
      Step(w, tkn, minLen, maxLen) == Wrap(w.text + tkn + "\n", 0)
    ensures !Exceeds(w.lineLen + |tkn|, maxLen) && !Reaches(w.lineLen + |tkn| + 1, minLen) ==>
      Step(w, tkn, minLen, maxLen) == Wrap(w.text + tkn + " ", w.lineLen + |tkn| + 1)
  {
    assert DropLast(w.text + tkn + " ") == w.text + tkn;
  }
}
