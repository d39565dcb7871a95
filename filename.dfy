/** The name the exported PDF is saved under:
    `Invitation_${inviteeName.replace(/\s+/g, "_")}.pdf`. */
module PdfFileName {
  import opened Text

  const Prefix: string := "Invitation_"
  const Suffix: string := ".pdf"

  /** `s.replace(/\s+/g, "_")`: the regular expression matches a maximal run
      of whitespace, which is replaced by one underscore; matching resumes
      after the run. */
  function CollapseWhitespace(s: string): (r: string)
    ensures NoWhitespace(r)
    ensures |r| <= |s|
    decreases |s|
  {
    if s == [] then []
    else if IsWhitespace(s[0]) then
      "_" + CollapseWhitespace(s[LeadingWhitespace(s)..])
    else [s[0]] + CollapseWhitespace(s[1..])
  }

  /** The file name the PDF is saved under. */
  function FileName(inviteeName: string): (r: string)
    ensures r == Prefix + CollapseWhitespace(inviteeName) + Suffix
    ensures |r| >= |Prefix| + |Suffix|
    ensures r[..|Prefix|] == Prefix && r[|r| - |Suffix|..] == Suffix
    ensures NoWhitespace(r)
    ensures |r| <= |Prefix| + |inviteeName| + |Suffix|
  {
    var middle := CollapseWhitespace(inviteeName);
    var r := Prefix + middle + Suffix;
    assert r[|Prefix| + |middle|..] == Suffix;
    forall i | 0 <= i < |r| ensures !IsWhitespace(r[i]) {
      if i < |Prefix| {
        assert r[i] == Prefix[i];
      } else if i < |Prefix| + |middle| {
        assert r[i] == middle[i - |Prefix|];
      } else {
        assert r[i] == Suffix[i - |Prefix| - |middle|];
      }
    }
    r
  }

  /** A name without whitespace appears in the file name exactly as typed. */
  lemma FileNameOfPlainName(inviteeName: string)
    requires NoWhitespace(inviteeName)
    ensures FileName(inviteeName) == Prefix + inviteeName + Suffix
  {
    CollapseIdentity(inviteeName);
  }

  /** An independent, character-at-a-time reading of the same replacement:
      a whitespace character becomes `_` when it opens a run and disappears
      when it continues one; every other character is copied. */
  function ReplaceScan(s: string, inRun: bool): string {
    if s == [] then []
    else if IsWhitespace(s[0]) then (if inRun then "" else "_") + ReplaceScan(s[1..], true)
    else [s[0]] + ReplaceScan(s[1..], false)
  }

  /** `s` without its whitespace and underscores: the characters the
      replacement must leave alone, in order. */
  function Visible(s: string): (r: string)
    ensures |r| <= |s|
  {
    if s == [] then []
    else if IsWhitespace(s[0]) || s[0] == '_' then Visible(s[1..])
    else [s[0]] + Visible(s[1..])
  }

  /** Inside a run, the scan emits nothing until the run ends. */
  lemma {:induction false} ScanSkipsRun(w: string, t: string)
    requires AllWhitespace(w)
    requires t == [] || !IsWhitespace(t[0])
    ensures ReplaceScan(w + t, true) == ReplaceScan(t, false)
  {
    if w == [] {
      assert w + t == t;
    } else {
      assert (w + t)[1..] == w[1..] + t;
      ScanSkipsRun(w[1..], t);
    }
  }

  /** The run-based replacement agrees with the character-at-a-time one. */
  lemma {:induction false} CollapseMatchesScan(s: string)
    ensures CollapseWhitespace(s) == ReplaceScan(s, false)
    decreases |s|
  {
    if s != [] {
      if IsWhitespace(s[0]) {
        var k := LeadingWhitespace(s);
        var rest := s[k..];
        assert s[1..] == s[1..k] + rest;
        ScanSkipsRun(s[1..k], rest);
        CollapseMatchesScan(rest);
      } else {
        CollapseMatchesScan(s[1..]);
      }
    }
  }

  /** The replacement changes a string exactly when the string holds
      whitespace. */
  lemma {:induction false} CollapseIdentity(s: string)
    ensures CollapseWhitespace(s) == s <==> NoWhitespace(s)
  {
    if s != [] && !IsWhitespace(s[0]) {
      CollapseIdentity(s[1..]);
      assert s == [s[0]] + s[1..];
    } else if s != [] {
      assert !NoWhitespace(s);
    }
  }

  lemma {:induction false} VisibleSkipsRun(w: string, t: string)
    requires AllWhitespace(w)
    ensures Visible(w + t) == Visible(t)
  {
    if w == [] {
      assert w + t == t;
    } else {
      assert (w + t)[1..] == w[1..] + t;
      VisibleSkipsRun(w[1..], t);
    }
  }

  /** Every character other than whitespace and `_` is kept, in order. */
  lemma {:induction false} CollapseKeepsVisible(s: string)
    ensures Visible(CollapseWhitespace(s)) == Visible(s)
    decreases |s|
  {
    if s != [] {
      if IsWhitespace(s[0]) {
        var k := LeadingWhitespace(s);
        var rest := s[k..];
        assert s == s[..k] + rest;
        VisibleSkipsRun(s[..k], rest);
        CollapseKeepsVisible(rest);
        assert ("_" + CollapseWhitespace(rest))[1..] == CollapseWhitespace(rest);
      } else {
        CollapseKeepsVisible(s[1..]);
        assert ([s[0]] + CollapseWhitespace(s[1..]))[1..] == CollapseWhitespace(s[1..]);
      }
    }
  }

  /** The leading whitespace of `x + y` lies inside `x` when `x` holds
      something else. */
  lemma {:induction false} LeadingConcat(x: string, y: string)
    requires !AllWhitespace(x)
    ensures LeadingWhitespace(x + y) == LeadingWhitespace(x)
  {
    if IsWhitespace(x[0]) {
      assert (x + y)[1..] == x[1..] + y;
      LeadingConcat(x[1..], y);
    }
  }

  /** A string cut just after a non-whitespace character is replaced piece
      by piece. */
  lemma {:induction false} CollapseConcat(x: string, y: string)
    requires x == [] || !IsWhitespace(x[|x| - 1])
    ensures CollapseWhitespace(x + y) == CollapseWhitespace(x) + CollapseWhitespace(y)
    decreases |x|, 1
  {
    if x == [] {
      assert x + y == y;
    } else if IsWhitespace(x[0]) {
      CollapseConcatRun(x, y);
    } else {
      CollapseConcatChar(x, y);
    }
  }

  /** `CollapseConcat` when `x` opens with a run of whitespace. */
  lemma {:induction false} CollapseConcatRun(x: string, y: string)
    requires x != [] && IsWhitespace(x[0]) && !IsWhitespace(x[|x| - 1])
    ensures CollapseWhitespace(x + y) == CollapseWhitespace(x) + CollapseWhitespace(y)
    decreases |x|, 0
  {
    var k := LeadingWhitespace(x);
    var rest := x[k..];
    assert rest != [] && rest[|rest| - 1] == x[|x| - 1] by {
      assert !IsWhitespace(x[|x| - 1]);
    }
    assert CollapseWhitespace(x + y) == "_" + CollapseWhitespace(rest + y) by {
      assert !IsWhitespace(x[|x| - 1]);
      LeadingConcat(x, y);
      assert (x + y)[0] == x[0];
      assert (x + y)[k..] == rest + y;
    }
    CollapseConcat(rest, y);
  }

  /** `CollapseConcat` when `x` opens with a character that is kept. */
  lemma {:induction false} CollapseConcatChar(x: string, y: string)
    requires x != [] && !IsWhitespace(x[0]) && !IsWhitespace(x[|x| - 1])
    ensures CollapseWhitespace(x + y) == CollapseWhitespace(x) + CollapseWhitespace(y)
    decreases |x|, 0
  {
    var rest := x[1..];
    assert (x + y)[0] == x[0];
    assert (x + y)[1..] == rest + y;
    CollapseConcat(rest, y);
  }

  /** Each maximal run of whitespace, whatever its length, becomes exactly
      one `_`. */
  lemma CollapseRun(a: string, w: string, b: string)
    requires a == [] || !IsWhitespace(a[|a| - 1])
    requires w != [] && AllWhitespace(w)
    requires b == [] || !IsWhitespace(b[0])
    ensures CollapseWhitespace(a + w + b) == CollapseWhitespace(a) + "_" + CollapseWhitespace(b)
  {
    calc {
      CollapseWhitespace(a + w + b);
      { assert a + w + b == a + (w + b); }
      CollapseWhitespace(a + (w + b));
      { CollapseConcat(a, w + b); }
      CollapseWhitespace(a) + CollapseWhitespace(w + b);
      { CollapseLeadingRun(w, b); }
      CollapseWhitespace(a) + ("_" + CollapseWhitespace(b));
      CollapseWhitespace(a) + "_" + CollapseWhitespace(b);
    }
  }

  lemma CollapseLeadingRun(w: string, b: string)
    requires w != [] && AllWhitespace(w)
    requires b == [] || !IsWhitespace(b[0])
    ensures CollapseWhitespace(w + b) == "_" + CollapseWhitespace(b)
  {
    var s := w + b;
    assert IsWhitespace(s[0]) by {
      assert s[0] == w[0];
    }
    assert s[LeadingWhitespace(s)..] == b by {
      LeadingSkips(w, b);
    }
  }
}
