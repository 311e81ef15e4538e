/** Python string operations used by the utilities: `str.split(sep)`,
    `sep.join(parts)`, whitespace `str.split()` and `str.replace(c, "")`. */
module Strings {
  import opened Results
  import opened Seqs

  /** The characters `str.split()` with no separator splits at: the
      Unicode whitespace characters Python's `str.isspace()` accepts. */
  predicate IsSpace(c: char)
  {
    var n := c as int;
    (9 <= n <= 13) || (28 <= n <= 32) || n == 0x85 || n == 0xA0 || n == 0x1680 ||
    (0x2000 <= n <= 0x200A) || n == 0x2028 || n == 0x2029 || n == 0x202F || n == 0x205F || n == 0x3000
  }

  predicate HasNoSpace(s: string)
  {
    forall i :: 0 <= i < |s| ==> !IsSpace(s[i])
  }

  /** `sep.join(parts)`. */
  function Join(parts: seq<string>, sep: string): string
  {
    if |parts| == 0 then ""
    else if |parts| == 1 then parts[0]
    else parts[0] + sep + Join(parts[1..], sep)
  }

  /** `sep` occurs in `s` at index `j`. */
  predicate OccursAt(s: string, sep: string, j: nat)
  {
    j + |sep| <= |s| && s[j..j + |sep|] == sep
  }

  /** The first index at or after `i` where `sep` occurs in `s`. */
  function Find(s: string, sep: string, i: nat): (r: Option<nat>)
    requires |sep| >= 1
    ensures r.Some? ==> i <= r.value && OccursAt(s, sep, r.value)
    ensures r.Some? ==> forall j :: i <= j < r.value ==> !OccursAt(s, sep, j)
    ensures r.None? ==> forall j :: i <= j ==> !OccursAt(s, sep, j)
    decreases |s| - i
  {
    if i + |sep| > |s| then None
    else if s[i..i + |sep|] == sep then Some(i)
    else Find(s, sep, i + 1)
  }

  /** `s.split(sep)` for a non-empty separator (Python raises ValueError on an empty one). */
  function Split(s: string, sep: string): (r: seq<string>)
    requires |sep| >= 1
    ensures |r| >= 1
    decreases |s|
  {
    match Find(s, sep, 0)
    case None => [s]
    case Some(j) => [s[..j]] + Split(s[j + |sep|..], sep)
  }

  lemma JoinCons(p: string, ps: seq<string>, sep: string)
    requires |ps| >= 1
    ensures Join([p] + ps, sep) == p + sep + Join(ps, sep)
  {
    assert ([p] + ps)[1..] == ps;
  }

  /** Joining the pieces of a split gives the string back. */
  lemma {:induction false} JoinSplit(s: string, sep: string)
    requires |sep| >= 1
    ensures Join(Split(s, sep), sep) == s
    decreases |s|
  {
    var f := Find(s, sep, 0);
    if f.Some? {
      var j := f.value;
      var rest := s[j + |sep|..];
      var ps := Split(rest, sep);
      assert Split(s, sep) == [s[..j]] + ps;
      assert s == s[..j] + sep + rest by {
        assert OccursAt(s, sep, j);
        assert s == s[..j] + s[j..j + |sep|] + rest;
      }
      assert Join(Split(s, sep), sep) == s[..j] + sep + Join(ps, sep) by {
        JoinCons(s[..j], ps, sep);
      }
      JoinSplit(rest, sep);
    }
  }

  predicate Avoids(s: string, c: char)
  {
    forall i :: 0 <= i < |s| ==> s[i] != c
  }

  /** With a left part free of the separator's first character, the first
      occurrence of the separator is right after it. */
  lemma FindAfterPart(p: string, sep: string, rest: string)
    requires |sep| >= 1 && Avoids(p, sep[0])
    ensures Find(p + sep + rest, sep, 0) == Some(|p|)
  {
    var s := p + sep + rest;
    assert s[|p|..|p| + |sep|] == sep;
    assert OccursAt(s, sep, |p|);
    forall j | 0 <= j < |p| ensures !OccursAt(s, sep, j) {
      assert s[j] == p[j];
      if j + |sep| <= |s| {
        assert s[j..j + |sep|][0] == s[j];
      }
    }
  }

  lemma FindNoSep(p: string, sep: string)
    requires |sep| >= 1 && Avoids(p, sep[0])
    ensures Find(p, sep, 0) == None
  {
    forall j | 0 <= j ensures !OccursAt(p, sep, j) {
      if j + |sep| <= |p| {
        assert p[j..j + |sep|][0] == p[j];
      }
    }
  }

  /** Splitting a join gives back the parts, provided no part contains the
      separator's first character. */
  lemma {:induction false} SplitJoin(parts: seq<string>, sep: string)
    requires |sep| >= 1 && |parts| >= 1
    requires forall i :: 0 <= i < |parts| ==> Avoids(parts[i], sep[0])
    ensures Split(Join(parts, sep), sep) == parts
    decreases |parts|
  {
    if |parts| == 1 {
      FindNoSep(parts[0], sep);
    } else {
      var rest := Join(parts[1..], sep);
      FindAfterPart(parts[0], sep, rest);
      var s := parts[0] + sep + rest;
      assert s[|parts[0]| + |sep|..] == rest;
      assert s[..|parts[0]|] == parts[0];
      SplitJoin(parts[1..], sep);
    }
  }

  /** Every piece of `s.split(c)` for a one-character separator is free of `c`. */
  lemma {:induction false} SplitAvoids(s: string, c: char)
    ensures forall i :: 0 <= i < |Split(s, [c])| ==> Avoids(Split(s, [c])[i], c)
    decreases |s|
  {
    match Find(s, [c], 0)
    case None =>
      forall i | 0 <= i < |s| ensures s[i] != c {
        assert !OccursAt(s, [c], i);
        assert s[i..i + 1] == [s[i]];
      }
    case Some(j) =>
      forall i | 0 <= i < j ensures s[i] != c {
        assert !OccursAt(s, [c], i);
        assert s[i..i + 1] == [s[i]];
      }
      SplitAvoids(s[j + 1..], c);
  }

  /** `s.replace(c, "")`. */
  function Remove(s: string, c: char): (r: string)
    ensures Avoids(r, c)
  {
    if s == [] then []
    else (if s[0] == c then [] else [s[0]]) + Remove(s[1..], c)
  }

  lemma {:induction false} RemoveAppend(a: string, b: string, c: char)
    ensures Remove(a + b, c) == Remove(a, c) + Remove(b, c)
  {
    if a != [] {
      assert (a + b)[1..] == a[1..] + b;
      RemoveAppend(a[1..], b, c);
    } else {
      assert a + b == b;
    }
  }

  lemma {:induction false} RemoveAvoiding(a: string, c: char)
    requires Avoids(a, c)
    ensures Remove(a, c) == a
  {
    if a != [] {
      RemoveAvoiding(a[1..], c);
    }
  }

  // ---- whitespace splitting ----

  /** Index of the first whitespace character, or `|s|` if there is none. */
  function FirstSpace(s: string): (k: nat)
    ensures k <= |s|
    ensures forall i :: 0 <= i < k ==> !IsSpace(s[i])
    ensures k < |s| ==> IsSpace(s[k])
  {
    if s == [] then 0
    else if IsSpace(s[0]) then 0
    else 1 + FirstSpace(s[1..])
  }

  /** `s.split()`: the maximal runs of non-whitespace characters, in order. */
  function Words(s: string): (r: seq<string>)
    ensures forall i :: 0 <= i < |r| ==> |r[i]| >= 1 && HasNoSpace(r[i])
    decreases |s|
  {
    if s == [] then []
    else if IsSpace(s[0]) then Words(s[1..])
    else
      var k := FirstSpace(s);
      [s[..k]] + Words(s[k..])
  }

  lemma FirstSpaceUnique(s: string, k: nat)
    requires k <= |s|
    requires forall i :: 0 <= i < k ==> !IsSpace(s[i])
    requires k < |s| ==> IsSpace(s[k])
    ensures FirstSpace(s) == k
  {
  }

  lemma FirstSpaceAppend(a: string, b: string)
    requires FirstSpace(a) < |a| || b == [] || IsSpace(b[0])
    ensures FirstSpace(a + b) == FirstSpace(a)
  {
    var k := FirstSpace(a);
    var s := a + b;
    forall i | 0 <= i < k ensures !IsSpace(s[i]) {
      assert s[i] == a[i];
    }
    if k < |a| {
      assert s[k] == a[k];
    } else if b != [] {
      assert s[k] == b[0];
    }
    FirstSpaceUnique(s, k);
  }

  /** `a + b` is cut next to whitespace (or at an end), so no word spans the cut. */
  predicate CutAtSpace(a: string, b: string)
  {
    a == [] || IsSpace(a[|a| - 1]) || b == [] || IsSpace(b[0])
  }

  /** Whitespace splitting distributes over a concatenation cut at whitespace. */
  lemma {:induction false} WordsAppend(a: string, b: string)
    requires CutAtSpace(a, b)
    ensures Words(a + b) == Words(a) + Words(b)
    decreases |a|
  {
    if a == [] {
      assert a + b == b;
    } else {
      var k := WordsAppendStep(a, b);
      WordsAppend(a[k..], b);
    }
  }

  /** One step of `Words` on `a + b` and on `a`: both drop the same leading
      space or take the same first word, and the rest is still cut at whitespace. */
  lemma WordsAppendStep(a: string, b: string) returns (k: nat)
    requires a != [] && CutAtSpace(a, b)
    ensures 1 <= k <= |a| && CutAtSpace(a[k..], b)
    ensures Words(a + b) == Words(a[..k]) + Words(a[k..] + b) && Words(a) == Words(a[..k]) + Words(a[k..])
  {
    CutAppend(a, b, 1);
    if IsSpace(a[0]) {
      k := 1;
      assert Words(a[..1]) == [];
    } else {
      k := FirstSpace(a);
      assert k < |a| || b == [] || IsSpace(b[0]) by {
        if !(b == [] || IsSpace(b[0])) {
          assert IsSpace(a[|a| - 1]);
        }
      }
      FirstSpaceAppend(a, b);
      CutAppend(a, b, k);
      assert Words(a[..k]) == [a[..k]] by {
        WordsOfWord(a[..k]);
      }
    }
    assert a[k..] == [] || a[k..][|a[k..]| - 1] == a[|a| - 1];
  }

  lemma WordsOfWord(t: string)
    requires |t| >= 1 && HasNoSpace(t)
    ensures Words(t) == [t]
  {
    FirstSpaceUnique(t, |t|);
    assert t[..|t|] == t;
    assert t[|t|..] == [];
  }

  lemma WordsOfSpace(c: char)
    requires IsSpace(c)
    ensures Words([c]) == []
  {
    assert [c][1..] == [];
  }

  /** No word contains whitespace, so joining with a whitespace character and
      splitting again gives the words back. */
  lemma {:induction false} WordsOfJoin(ws: seq<string>, c: char)
    requires IsSpace(c)
    requires forall i :: 0 <= i < |ws| ==> |ws[i]| >= 1 && HasNoSpace(ws[i])
    ensures Words(Join(ws, [c])) == ws
  {
    if |ws| == 1 {
      WordsOfWord(ws[0]);
    } else if |ws| > 1 {
      WordsOfJoin(ws[1..], c);
      WordsOfWord(ws[0]);
      WordsOfSpace(c);
      var j := Join(ws[1..], [c]);
      WordsAppend(ws[0], [c]);
      WordsAppend(ws[0] + [c], j);
      assert ws[0] + [c] + j == (ws[0] + [c]) + j;
      assert [ws[0]] + ws[1..] == ws;
    }
  }

  /** Joining parts that avoid `c` with `c` and taking `c` out again gives
      the parts put together. */
  lemma {:induction false} RemoveJoin(parts: seq<string>, c: char)
    requires forall i :: 0 <= i < |parts| ==> Avoids(parts[i], c)
    ensures Remove(Join(parts, [c]), c) == Flatten(parts)
    decreases |parts|
  {
    if |parts| == 1 {
      RemoveAvoiding(parts[0], c);
      assert Flatten(parts) == Flatten([]) + parts[0];
    } else if |parts| > 1 {
      RemoveJoin(parts[1..], c);
      RemoveAppend(parts[0] + [c], Join(parts[1..], [c]), c);
      RemoveAppend(parts[0], [c], c);
      RemoveAvoiding(parts[0], c);
      assert Remove([c], c) == [];
      assert parts == [parts[0]] + parts[1..];
      FlattenCons(parts[0], parts[1..]);
    }
  }

  /** `s.replace(c, "")` is the concatenation of `s.split(c)`. */
  lemma RemoveSplit(s: string, c: char)
    ensures Remove(s, c) == Flatten(Split(s, [c]))
  {
    SplitAvoids(s, c);
    RemoveJoin(Split(s, [c]), c);
    JoinSplit(s, [c]);
  }
}
