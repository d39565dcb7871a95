/** The "Best compliments from" line of the card: a list of names separated by
    `&` is shown with every name trimmed and the separators widened to
    `"  &  "` (`formatNamesWithAmpersand`). */
module Credits {
  import opened Text

  const Ampersand: char := '&'

  /** Two spaces on each side of the ampersand. */
  const Joiner: string := "  &  "

  /** The spaces a joiner leaves on either side of its ampersand. */
  const Pad: string := "  "

  function TrimAll(parts: seq<string>): (r: seq<string>)
    ensures |r| == |parts|
    ensures forall i :: 0 <= i < |r| ==> r[i] == Trim(parts[i])
  {
    seq(|parts|, i requires 0 <= i < |parts| => Trim(parts[i]))
  }

  /** `names.split("&").map(part => part.trim()).join("  &  ")` */
  function FormatNamesWithAmpersand(names: string): (r: string)
    ensures Count(r, Ampersand) == Count(names, Ampersand)
  {
    var ts := TrimAll(Split(names, Ampersand));
    TrimmedPieces(names);
    CountJoin(ts, Joiner, Ampersand);
    JoinerCount();
    Join(ts, Joiner)
  }

  /** The pieces a joined string falls into when it is split on `&` again:
      each original piece with the joiner's padding still attached on every
      side that had a joiner. */
  function Padded(ts: seq<string>): (r: seq<string>)
    ensures |r| == |ts|
  {
    seq(|ts|, i requires 0 <= i < |ts| =>
      (if i > 0 then Pad else "") + ts[i] + (if i < |ts| - 1 then Pad else ""))
  }

  /** The trimmed pieces of any input hold no ampersand and are trimmed. */
  lemma TrimmedPieces(names: string)
    ensures var ts := TrimAll(Split(names, Ampersand));
      && |ts| == Count(names, Ampersand) + 1
      && forall i :: 0 <= i < |ts| ==> Ampersand !in ts[i] && IsTrimmed(ts[i])
  {
    var parts := Split(names, Ampersand);
    forall i | 0 <= i < |parts| ensures Ampersand !in Trim(parts[i]) {
      TrimKeepsNonWhitespace(parts[i], Ampersand);
    }
  }

  /** Splitting a string joined with `"  &  "` on `&` recovers the pieces,
      each with its padding. */
  lemma {:induction false} SplitJoined(ts: seq<string>)
    requires |ts| >= 1
    requires forall i :: 0 <= i < |ts| ==> Ampersand !in ts[i]
    ensures Split(Join(ts, Joiner), Ampersand) == Padded(ts)
  {
    if |ts| == 1 {
      SplitNone(ts[0], Ampersand);
      assert "" + ts[0] + "" == ts[0];
    } else {
      var rest := ts[1..];
      SplitJoined(rest);
      var j := Join(rest, Joiner);
      assert Join(ts, Joiner) == (ts[0] + Pad) + [Ampersand] + (Pad + j);
      assert Ampersand !in ts[0] + Pad;
      SplitAt(ts[0] + Pad, Pad + j, Ampersand);
      SplitPrefix(Pad, j, Ampersand);
      PaddedCons(ts);
    }
  }

  /** The padded pieces of a list of two or more: the first piece gets a
      trailing pad, and the padded rest gets a leading pad on its first. */
  lemma PaddedCons(ts: seq<string>)
    requires |ts| >= 2
    ensures var pr := Padded(ts[1..]);
      Padded(ts) == [ts[0] + Pad] + ([Pad + pr[0]] + pr[1..])
  {
    var rest := ts[1..];
    var pr := Padded(rest);
    var got := [ts[0] + Pad] + ([Pad + pr[0]] + pr[1..]);
    forall i | 0 <= i < |ts| ensures got[i] == Padded(ts)[i] {
      if i == 0 {
        assert Padded(ts)[0] == "" + ts[0] + Pad;
      } else if i == 1 {
        assert pr[0] == "" + rest[0] + (if 0 < |rest| - 1 then Pad else "");
      } else {
        assert got[i] == pr[i - 1];
      }
    }
  }

  /** Trimming a padded piece removes exactly its padding. */
  lemma TrimPadded(ts: seq<string>)
    requires forall i :: 0 <= i < |ts| ==> IsTrimmed(ts[i])
    ensures forall i :: 0 <= i < |ts| ==> Trim(Padded(ts)[i]) == ts[i]
  {
    forall i | 0 <= i < |ts| ensures Trim(Padded(ts)[i]) == ts[i] {
      var before := if i > 0 then Pad else "";
      var after := if i < |ts| - 1 then Pad else "";
      assert Padded(ts)[i] == before + ts[i] + after;
      assert AllWhitespace(before) && AllWhitespace(after);
      TrimCharacterized(before, ts[i], after);
    }
  }

  /** Every `&` of `r` is the middle character of a `"  &  "`. */
  predicate AmpersandsInJoiners(r: string) {
    forall k {:trigger r[k]} :: 0 <= k < |r| && r[k] == Ampersand ==>
      2 <= k && k + 3 <= |r| && r[k - 2..k + 3] == Joiner
  }

  /** Every ampersand of a string joined with `"  &  "` from ampersand-free
      pieces sits in the middle of a joiner. */
  lemma {:induction false} JoinedAmpersands(ts: seq<string>)
    requires |ts| >= 1
    requires forall i :: 0 <= i < |ts| ==> Ampersand !in ts[i]
    ensures AmpersandsInJoiners(Join(ts, Joiner))
  {
    var r := Join(ts, Joiner);
    if |ts| == 1 {
      assert forall k :: 0 <= k < |r| ==> r[k] != Ampersand;
    } else {
      var j := Join(ts[1..], Joiner);
      JoinedAmpersands(ts[1..]);
      var n := |ts[0]|;
      assert r == ts[0] + Joiner + j;
      forall k | 0 <= k < |r| && r[k] == Ampersand
        ensures 2 <= k && k + 3 <= |r| && r[k - 2..k + 3] == Joiner
      {
        assert forall m :: 0 <= m < n ==> r[m] == ts[0][m];
        if k < n + 5 {
          assert r[k] == Joiner[k - n];
          assert k == n + 2;
          assert r[k - 2..k + 3] == Joiner;
        } else {
          var k' := k - n - 5;
          assert j[k'] == Ampersand;
          assert 2 <= k' && k' + 3 <= |j| && j[k' - 2..k' + 3] == Joiner;
          assert r[k - 2..k + 3] == j[k' - 2..k' + 3];
        }
      }
    }
  }

  /** The joiner holds one ampersand. */
  lemma JoinerCount()
    ensures Count(Joiner, Ampersand) == 1
  {
    assert Joiner == Pad + ([Ampersand] + Pad);
    CountAbsent(Pad, Ampersand);
    CountConcat(Pad, [Ampersand] + Pad, Ampersand);
    CountConcat([Ampersand], Pad, Ampersand);
  }

  /** Every ampersand of the output is the middle of a `"  &  "` joiner. */
  lemma FormatAmpersandsInJoiners(names: string)
    ensures AmpersandsInJoiners(FormatNamesWithAmpersand(names))
  {
    TrimmedPieces(names);
    JoinedAmpersands(TrimAll(Split(names, Ampersand)));
  }

  /** Between two joiners the output holds exactly the trimmed segment of
      the input that sat between the corresponding two ampersands, padded
      only by the joiners' own spaces. */
  lemma FormatSegments(names: string)
    ensures var ins := Split(names, Ampersand);
      var outs := Split(FormatNamesWithAmpersand(names), Ampersand);
      && |outs| == |ins|
      && forall i :: 0 <= i < |outs| ==>
        && outs[i] == (if i > 0 then Pad else "") + Trim(ins[i]) + (if i < |ins| - 1 then Pad else "")
        && IsTrimmed(Trim(ins[i]))
        && Trim(outs[i]) == Trim(ins[i])
  {
    var ts := TrimAll(Split(names, Ampersand));
    TrimmedPieces(names);
    SplitJoined(ts);
    TrimPadded(ts);
  }

  /** A string without `&` is only trimmed; in particular `""` stays `""`. */
  lemma FormatWithoutAmpersand(names: string)
    requires Ampersand !in names
    ensures FormatNamesWithAmpersand(names) == Trim(names)
    ensures names == "" ==> FormatNamesWithAmpersand(names) == ""
  {
    SplitNone(names, Ampersand);
    assert TrimAll([names]) == [Trim(names)];
  }

  /** Formatting an already formatted string changes nothing. */
  lemma FormatIdempotent(names: string)
    ensures FormatNamesWithAmpersand(FormatNamesWithAmpersand(names))
         == FormatNamesWithAmpersand(names)
  {
    var ts := TrimAll(Split(names, Ampersand));
    TrimmedPieces(names);
    SplitJoined(ts);
    TrimPadded(ts);
    assert TrimAll(Padded(ts)) == ts;
  }
}
