/** The Python `str` operations the core relies on, over `string` (`seq<char>`).
    Each is written the way CPython evaluates it, and each comes with the
    lemmas that say what the result means. */
module Strings {

  /** `s.startswith(p)` */
  predicate StartsWith(s: string, p: string) {
    |p| <= |s| && s[..|p|] == p
  }

  /** `s.endswith(p)` */
  predicate EndsWith(s: string, p: string) {
    |p| <= |s| && s[|s| - |p|..] == p
  }

  /** `t` occurs in `s` starting at index `i`. */
  predicate OccursAt(s: string, t: string, i: int) {
    0 <= i && i + |t| <= |s| && s[i..i + |t|] == t
  }

  /** `t in s`: the substring test, scanning from the left. */
  predicate Contains(s: string, t: string)
    decreases |s|
  {
    StartsWith(s, t) || (|s| > 0 && Contains(s[1..], t))
  }

  /** A successful scan has found an occurrence. */
  lemma {:induction false} ContainsWitness(s: string, t: string) returns (i: nat)
    requires Contains(s, t)
    ensures OccursAt(s, t, i)
    decreases |s|
  {
    if StartsWith(s, t) {
      i := 0;
    } else {
      var j := ContainsWitness(s[1..], t);
      assert s[1..][j..j + |t|] == s[j + 1..j + 1 + |t|];
      i := j + 1;
    }
  }

  /** Every occurrence is found by the scan. */
  lemma {:induction false} OccursContains(s: string, t: string, i: int)
    requires OccursAt(s, t, i)
    ensures Contains(s, t)
    decreases i
  {
    if i == 0 {
      assert s[..|t|] == s[0..0 + |t|];
    } else {
      assert s[1..][i - 1..i - 1 + |t|] == s[i..i + |t|];
      OccursContains(s[1..], t, i - 1);
    }
  }

  /** The scan finds `t` exactly when `t` occurs somewhere in `s`. */
  lemma ContainsIff(s: string, t: string)
    ensures Contains(s, t) <==> exists i :: OccursAt(s, t, i)
  {
    if Contains(s, t) {
      var i := ContainsWitness(s, t);
    }
    forall i | OccursAt(s, t, i)
      ensures Contains(s, t)
    {
      OccursContains(s, t, i);
    }
  }

  /** `s.replace(pat, rep)`: the non-overlapping occurrences of `pat`, found
      left to right, are each replaced by `rep`; an empty `pat` puts `rep`
      before every character and at the end. */
  function Replace(s: string, pat: string, rep: string): string
    decreases |s|
  {
    if |pat| == 0 then
      if |s| == 0 then rep else rep + [s[0]] + Replace(s[1..], pat, rep)
    else if StartsWith(s, pat) then rep + Replace(s[|pat|..], pat, rep)
    else if |s| == 0 then ""
    else [s[0]] + Replace(s[1..], pat, rep)
  }

  /** Replacing a pattern that does not occur changes nothing. */
  lemma {:induction false} ReplaceAbsent(s: string, pat: string, rep: string)
    requires |pat| > 0 && !Contains(s, pat)
    ensures Replace(s, pat, rep) == s
    decreases |s|
  {
    if |s| > 0 {
      ReplaceAbsent(s[1..], pat, rep);
      assert [s[0]] + s[1..] == s;
    }
  }

  /** A prefix `a` in which no occurrence of `pat` starts is copied unchanged. */
  lemma {:induction false} ReplaceSkipsPrefix(a: string, b: string, pat: string, rep: string)
    requires |pat| > 0
    requires forall i :: 0 <= i < |a| ==> !OccursAt(a + b, pat, i)
    ensures Replace(a + b, pat, rep) == a + Replace(b, pat, rep)
    decreases |a|
  {
    if |a| > 0 {
      var s := a + b;
      assert !OccursAt(s, pat, 0);
      assert !StartsWith(s, pat) by {
        assert |pat| <= |s| ==> s[0..0 + |pat|] == s[..|pat|];
      }
      assert s[1..] == a[1..] + b;
      forall i | 0 <= i < |a[1..]|
        ensures !OccursAt(a[1..] + b, pat, i)
      {
        assert !OccursAt(s, pat, i + 1);
        if i + |pat| <= |a[1..] + b| {
          assert (a[1..] + b)[i..i + |pat|] == s[i + 1..i + 1 + |pat|];
        }
      }
      ReplaceSkipsPrefix(a[1..], b, pat, rep);
      assert [a[0]] + (a[1..] + Replace(b, pat, rep)) == a + Replace(b, pat, rep);
    } else {
      assert a + b == b;
    }
  }

  /** A chunk `a` in which no occurrence of `pat` can start (its first
      character does not begin one, and the first character of `pat` does
      not appear after it) is copied unchanged. */
  lemma ReplaceSkipsChunk(a: string, b: string, pat: string, rep: string)
    requires |pat| > 0 && |a| > 0
    requires pat[0] !in a[1..]
    requires a[0] != pat[0] || (|pat| <= |a| && a[..|pat|] != pat)
    ensures Replace(a + b, pat, rep) == a + Replace(b, pat, rep)
  {
    var s := a + b;
    forall i | 0 <= i < |a|
      ensures !OccursAt(s, pat, i)
    {
      if i > 0 {
        assert a[1..][i - 1] == s[i];
        assert i + |pat| <= |s| ==> s[i..i + |pat|][0] == s[i];
      } else {
        assert |pat| <= |s| ==> s[0..|pat|][0] == a[0];
        assert |pat| <= |a| ==> s[0..|pat|] == a[..|pat|];
      }
    }
    ReplaceSkipsPrefix(a, b, pat, rep);
  }

  /** A character absent from both `s` and `rep` is absent from the result. */
  lemma {:induction false} ReplaceKeepsOut(s: string, pat: string, rep: string, c: char)
    requires c !in s && c !in rep
    ensures c !in Replace(s, pat, rep)
    decreases |s|
  {
    if |pat| == 0 {
      if |s| > 0 { ReplaceKeepsOut(s[1..], pat, rep, c); }
    } else if StartsWith(s, pat) {
      ReplaceKeepsOut(s[|pat|..], pat, rep, c);
    } else if |s| > 0 {
      ReplaceKeepsOut(s[1..], pat, rep, c);
    }
  }

  /** `s.split(c)` for a one-character separator: the fields between the
      separators, so there is always at least one field and none of them
      contains the separator. */
  function Split(s: string, c: char): (r: seq<string>)
    ensures |r| >= 1
    ensures forall k :: 0 <= k < |r| ==> c !in r[k]
    decreases |s|
  {
    if |s| == 0 then [""]
    else
      var rest := Split(s[1..], c);
      if s[0] == c then [""] + rest
      else [[s[0]] + rest[0]] + rest[1..]
  }

  /** `sep.join(parts)` */
  function Join(parts: seq<string>, sep: string): string
    decreases |parts|
  {
    if |parts| == 0 then ""
    else if |parts| == 1 then parts[0]
    else parts[0] + sep + Join(parts[1..], sep)
  }

  /** The text before the first `c` in `s` (all of `s` when `c` is absent),
      read from the left. */
  function FirstField(s: string, c: char): (r: string)
    ensures c !in r
    ensures |r| <= |s| && r == s[..|r|] && (|r| == |s| || s[|r|] == c)
    decreases |s|
  {
    if |s| == 0 || s[0] == c then "" else [s[0]] + FirstField(s[1..], c)
  }

  /** `s.split(c)[0]` is the text before the first separator. */
  lemma {:induction false} FirstOfSplit(s: string, c: char)
    ensures Split(s, c)[0] == FirstField(s, c)
    decreases |s|
  {
    if |s| > 0 && s[0] != c {
      FirstOfSplit(s[1..], c);
    }
  }

  /** Joining the fields with the separator rebuilds the string. */
  lemma {:induction false} JoinSplit(s: string, c: char)
    ensures Join(Split(s, c), [c]) == s
    decreases |s|
  {
    if |s| > 0 {
      var rest := Split(s[1..], c);
      JoinSplit(s[1..], c);
      if s[0] == c {
        assert ([""] + rest)[1..] == rest;
        assert s == [c] + s[1..];
      } else if |rest| == 1 {
        assert s == [s[0]] + s[1..];
      } else {
        var parts := [[s[0]] + rest[0]] + rest[1..];
        assert parts[1..] == rest[1..];
        assert s == [s[0]] + s[1..];
      }
    }
  }

  /** A field free of the separator is split off intact from the front. */
  lemma {:induction false} SplitPrefix(a: string, t: string, c: char)
    requires c !in a
    ensures Split(a + t, c) == [a + Split(t, c)[0]] + Split(t, c)[1..]
    decreases |a|
  {
    if |a| > 0 {
      assert (a + t)[0] == a[0];
      assert (a + t)[1..] == a[1..] + t;
      SplitPrefix(a[1..], t, c);
      var r := Split(a[1..] + t, c);
      assert r[0] == a[1..] + Split(t, c)[0];
      assert r[1..] == Split(t, c)[1..];
      assert [a[0]] + (a[1..] + Split(t, c)[0]) == a + Split(t, c)[0];
    } else {
      assert a + t == t;
      assert a + Split(t, c)[0] == Split(t, c)[0];
      assert Split(t, c) == [Split(t, c)[0]] + Split(t, c)[1..];
    }
  }

  /** A string without the separator is its own only field. */
  lemma {:induction false} SplitNoSep(s: string, c: char)
    requires c !in s
    ensures Split(s, c) == [s]
  {
    SplitPrefix(s, "", c);
    assert s + "" == s;
  }

  /** Splitting the joined fields gives the fields back, provided there is at
      least one and none contains the separator. */
  lemma {:induction false} SplitJoin(parts: seq<string>, c: char)
    requires |parts| >= 1
    requires forall k :: 0 <= k < |parts| ==> c !in parts[k]
    ensures Split(Join(parts, [c]), c) == parts
    decreases |parts|
  {
    if |parts| == 1 {
      SplitNoSep(parts[0], c);
    } else {
      var tail := Join(parts[1..], [c]);
      SplitJoin(parts[1..], c);
      assert Join(parts, [c]) == parts[0] + ([c] + tail);
      SplitPrefix(parts[0], [c] + tail, c);
      assert ([c] + tail)[1..] == tail;
      assert Split([c] + tail, c) == [""] + parts[1..];
      assert parts[0] + "" == parts[0];
      assert ([""] + parts[1..])[1..] == parts[1..];
    }
  }

  /** Appending a separator opens a new, empty last field. */
  lemma {:induction false} SplitAppendSep(s: string, c: char)
    ensures Split(s + [c], c) == Split(s, c) + [""]
    decreases |s|
  {
    if |s| == 0 {
      assert s + [c] == [c];
      assert [c][1..] == "";
    } else {
      assert (s + [c])[1..] == s[1..] + [c];
      SplitAppendSep(s[1..], c);
      var rest := Split(s[1..], c);
      if s[0] != c {
        assert (rest + [""])[0] == rest[0];
        assert (rest + [""])[1..] == rest[1..] + [""];
      }
    }
  }

  /** Appending text free of the separator extends the last field only. */
  lemma {:induction false} SplitAppendNoSep(s: string, t: string, c: char)
    requires c !in t
    ensures var f := Split(s, c);
      Split(s + t, c) == f[..|f| - 1] + [f[|f| - 1] + t]
    decreases |s|
  {
    if |s| == 0 {
      SplitNoSep(t, c);
      assert s + t == t;
    } else {
      SplitAppendNoSep(s[1..], t, c);
      SplitAppendNoSepStep(s, t, c);
    }
  }

  /** The inductive step of `SplitAppendNoSep`: from the tail to the whole. */
  lemma {:induction false} SplitAppendNoSepStep(s: string, t: string, c: char)
    requires |s| > 0 && c !in t
    requires var f := Split(s[1..], c);
      Split(s[1..] + t, c) == f[..|f| - 1] + [f[|f| - 1] + t]
    ensures var f := Split(s, c);
      Split(s + t, c) == f[..|f| - 1] + [f[|f| - 1] + t]
  {
    assert (s + t)[1..] == s[1..] + t;
    assert (s + t)[0] == s[0];
    var r := Split(s[1..], c);
    var ru := Split(s[1..] + t, c);
    if s[0] == c {
      StepAfterSep(r, ru, t);
    } else {
      StepInField(s[0], r, ru, t);
    }
  }

  /** Step when the first character is the separator. */
  lemma StepAfterSep(r: seq<string>, ru: seq<string>, t: string)
    requires |r| >= 1 && ru == r[..|r| - 1] + [r[|r| - 1] + t]
    ensures var f := [""] + r; [""] + ru == f[..|f| - 1] + [f[|f| - 1] + t]
  {
    assert ([""] + r)[..|r|] == [""] + r[..|r| - 1];
  }

  /** Step when the first character joins the first field. */
  lemma StepInField(x: char, r: seq<string>, ru: seq<string>, t: string)
    requires |r| >= 1 && ru == r[..|r| - 1] + [r[|r| - 1] + t]
    ensures var f := [[x] + r[0]] + r[1..];
      [[x] + ru[0]] + ru[1..] == f[..|f| - 1] + [f[|f| - 1] + t]
  {
    var m := |r|;
    if m == 1 {
      assert [x] + (r[0] + t) == [x] + r[0] + t;
    } else {
      var f := [[x] + r[0]] + r[1..];
      assert f[..m - 1] == [[x] + r[0]] + r[1..m - 1];
      assert ru[0] == r[0];
      assert ru[1..] == r[1..m - 1] + [r[m - 1] + t];
    }
  }

  /** The text after the last `c` in `s` (all of `s` when `c` is absent),
      read from the right. */
  function LastField(s: string, c: char): (r: string)
    ensures c !in r
    ensures |r| <= |s| && r == s[|s| - |r|..] && (|r| == |s| || s[|s| - |r| - 1] == c)
    decreases |s|
  {
    if |s| == 0 then ""
    else if s[|s| - 1] == c then ""
    else LastField(s[..|s| - 1], c) + [s[|s| - 1]]
  }

  /** A string without the separator is its own last field. */
  lemma LastFieldNoSep(s: string, c: char)
    requires c !in s
    ensures LastField(s, c) == s
  {
  }

  /** `s.split(c)[-1]` is the text after the last separator. */
  lemma {:induction false} LastOfSplit(s: string, c: char)
    ensures var f := Split(s, c); f[|f| - 1] == LastField(s, c)
    decreases |s|
  {
    if |s| > 0 {
      var p := s[..|s| - 1];
      assert s == p + [s[|s| - 1]];
      LastOfSplit(p, c);
      if s[|s| - 1] == c {
        SplitAppendSep(p, c);
      } else {
        SplitAppendNoSep(p, [s[|s| - 1]], c);
      }
    }
  }

  /** The last field of a string ending in separator-free `t` ends in `t`. */
  lemma LastFieldEndsWith(s: string, t: string, c: char)
    requires EndsWith(s, t) && c !in t
    ensures EndsWith(LastField(s, c), t)
  {
    var p := s[..|s| - |t|];
    assert s == p + t;
    SplitAppendNoSep(p, t, c);
    LastOfSplit(p, c);
    LastOfSplit(s, c);
    var r := LastField(s, c);
    assert r == LastField(p, c) + t;
    assert r[|r| - |t|..] == t;
  }

  /** `s.lstrip(chars)`: drops the longest prefix of `s` made only of
      characters in `chars`. */
  function LStrip(s: string, chars: string): (r: string)
    ensures |r| <= |s| && r == s[|s| - |r|..]
    ensures forall i :: 0 <= i < |s| - |r| ==> s[i] in chars
    ensures |r| == 0 || r[0] !in chars
    decreases |s|
  {
    if |s| > 0 && s[0] in chars then LStrip(s[1..], chars) else s
  }

  /** The three properties of `LStrip` single out its result: any suffix of
      `s` whose dropped prefix is all in `chars` and that does not itself
      start with one of them is the stripped string. */
  lemma LStripUnique(s: string, chars: string, r: string)
    requires |r| <= |s| && r == s[|s| - |r|..]
    requires forall i :: 0 <= i < |s| - |r| ==> s[i] in chars
    requires |r| == 0 || r[0] !in chars
    ensures r == LStrip(s, chars)
  {
  }
}
