/** The iframe `src` rewrite of video-sync.js: force `autoplay=0` (replacing
    the first `autoplay=1`, or appending the parameter when there is none) and
    flip the first `muted=1` to `muted=0`. */
module EmbedUrl {
  import opened Optional
  import opened Strings

  const AutoplayKey: string := "autoplay="
  const AutoplayOn: string := "autoplay=1"
  const AutoplayOff: string := "autoplay=0"
  const MutedKey: string := "muted="
  const MutedOn: string := "muted=1"
  const MutedOff: string := "muted=0"

  /** The query separator for a parameter appended to `s`. */
  function Separator(s: string): string
  {
    if Contains(s, "?") then "&" else "?"
  }

  /** The autoplay half of the rewrite (video-sync.js lines 17-22). */
  function ForceAutoplayOff(src: string): string
  {
    var s1 := if Contains(src, AutoplayOn) then ReplaceFirst(src, AutoplayOn, AutoplayOff) else src;
    if !Contains(s1, AutoplayKey) then s1 + Separator(s1) + AutoplayOff else s1
  }

  /** What the autoplay half guarantees: the three cases of the source, the
      presence of the key afterwards, and no effect on any `muted` parameter. */
  lemma ForceAutoplayOffSpec(src: string)
    ensures !Contains(src, AutoplayKey) ==>
              ForceAutoplayOff(src) == src + Separator(src) + AutoplayOff
    ensures IndexOf(src, AutoplayOn).Some? ==>
              ForceAutoplayOff(src) == src[IndexOf(src, AutoplayOn).value + 9 := '0']
    ensures Contains(src, AutoplayKey) && !Contains(src, AutoplayOn) ==> ForceAutoplayOff(src) == src
    ensures Contains(ForceAutoplayOff(src), AutoplayKey)
    ensures forall j :: OccursAt(ForceAutoplayOff(src), MutedKey, j) <==> OccursAt(src, MutedKey, j)
    ensures forall j :: OccursAt(ForceAutoplayOff(src), MutedOn, j) <==> OccursAt(src, MutedOn, j)
  {
    match IndexOf(src, AutoplayOn)
    case Some(i) =>
      ReplaceCase(src, i);
      OnHasKey(src, i);
    case None =>
      if !Contains(src, AutoplayKey) {
        AppendCase(src);
      }
  }

  /** A string with `autoplay=1` already has the `autoplay=` key. */
  lemma OnHasKey(s: string, i: int)
    requires OccursAt(s, AutoplayOn, i)
    ensures OccursAt(s, AutoplayKey, i)
  {
    assert s[i..i + 9] == s[i..i + 10][..9];
  }

  /** Replacing the first `autoplay=1` rewrites its final digit only. */
  lemma ReplaceCase(src: string, i: nat)
    requires IndexOf(src, AutoplayOn) == Some(i)
    ensures var s1 := ReplaceFirst(src, AutoplayOn, AutoplayOff);
            && s1 == src[i + 9 := '0']
            && Contains(s1, AutoplayKey)
            && (forall j :: OccursAt(s1, MutedKey, j) <==> OccursAt(src, MutedKey, j))
            && (forall j :: OccursAt(s1, MutedOn, j) <==> OccursAt(src, MutedOn, j))
  {
    ReplaceLastChar(src, AutoplayOn, AutoplayOff);
    assert src[i + 9] == '1' by { assert src[i..i + 10][9] == '1'; }
    OnHasKey(src, i);
    SwapKeepsOccurrences(src, i + 9, '0', AutoplayKey, i);
    forall j
      ensures OccursAt(src[i + 9 := '0'], MutedKey, j) <==> OccursAt(src, MutedKey, j)
      ensures OccursAt(src[i + 9 := '0'], MutedOn, j) <==> OccursAt(src, MutedOn, j)
    {
      SwapKeepsOccurrences(src, i + 9, '0', MutedKey, j);
      MutedOnSurvivesAutoplaySwap(src, i, j);
    }
  }

  /** Appending `?autoplay=0` or `&autoplay=0` adds the key and cannot touch a
      `muted` parameter. */
  lemma AppendCase(src: string)
    requires !Contains(src, AutoplayKey)
    ensures var r := src + Separator(src) + AutoplayOff;
            && Contains(r, AutoplayKey)
            && (forall j :: OccursAt(r, MutedKey, j) <==> OccursAt(src, MutedKey, j))
            && (forall j :: OccursAt(r, MutedOn, j) <==> OccursAt(src, MutedOn, j))
  {
    var t := Separator(src) + AutoplayOff;
    var r := src + Separator(src) + AutoplayOff;
    assert r == src + t;
    assert r[|src| + 1..|src| + 10] == AutoplayKey;
    assert OccursAt(r, AutoplayKey, |src| + 1);
    forall j
      ensures OccursAt(r, MutedKey, j) <==> OccursAt(src, MutedKey, j)
      ensures OccursAt(r, MutedOn, j) <==> OccursAt(src, MutedOn, j)
    {
      AppendKeepsOccurrences(src, t, MutedKey, j);
      AppendKeepsOccurrences(src, t, MutedOn, j);
    }
  }

  /** `muted=1` and `autoplay=1` cannot share their final `1`, so turning the
      first `autoplay=1` off leaves every `muted=1` where it was. */
  lemma MutedOnSurvivesAutoplaySwap(src: string, i: nat, j: int)
    requires OccursAt(src, AutoplayOn, i)
    ensures OccursAt(src[i + 9 := '0'], MutedOn, j) <==> OccursAt(src, MutedOn, j)
  {
    var s1 := src[i + 9 := '0'];
    if 0 <= j && j + 7 <= |src| {
      assert src[i..i + 10][7] == 'y';
      if j + 6 == i + 9 {
        assert src[j..j + 7][4] == src[i + 7];
        assert s1[j..j + 7][4] == src[i + 7];
      } else if j <= i + 9 < j + 7 {
        assert src[j..j + 7][i + 9 - j] == src[i + 9];
        assert s1[j..j + 7][i + 9 - j] == '0';
      } else {
        assert s1[j..j + 7] == src[j..j + 7];
      }
    }
  }

  /** `replace` touches the first `autoplay=1` only: any later one stays. */
  lemma ForceAutoplayOffFirstOnly(src: string, j: int)
    requires IndexOf(src, AutoplayOn).Some?
    requires OccursAt(src, AutoplayOn, j) && j != IndexOf(src, AutoplayOn).value
    ensures OccursAt(ForceAutoplayOff(src), AutoplayOn, j)
  {
    var i := IndexOf(src, AutoplayOn).value;
    ReplaceCase(src, i);
    LaterOnSurvives(src, i, j);
  }

  /** Two occurrences of `autoplay=1` cannot overlap, so rewriting the digit
      of the earlier one leaves the later one whole. */
  lemma LaterOnSurvives(src: string, i: int, j: int)
    requires OccursAt(src, AutoplayOn, i) && OccursAt(src, AutoplayOn, j) && i < j
    ensures OccursAt(src[i + 9 := '0'], AutoplayOn, j)
  {
    assert src[i + 9] == src[i..i + 10][9];
    assert forall k :: j <= k < j + 10 ==> src[k] == src[j..j + 10][k - j];
    assert forall k :: 0 <= k < 9 ==> AutoplayOn[k] != '1';
    assert i + 9 < j;
    assert src[i + 9 := '0'][j..j + 10] == src[j..j + 10];
  }

  // ---------------------------------------------------------------------------
  // The muted half and the whole rewrite

  /** The muted half of the rewrite (video-sync.js lines 25-27). */
  function MuteOff(s: string): string
  {
    if Contains(s, MutedOn) then ReplaceFirst(s, MutedOn, MutedOff) else s
  }

  /** The muted half flips the digit of the first `muted=1` only, and leaves
      every `autoplay=` and every `muted=` where it was. */
  lemma MuteOffSpec(s: string)
    ensures IndexOf(s, MutedOn).Some? ==> MuteOff(s) == s[IndexOf(s, MutedOn).value + 6 := '0']
    ensures !Contains(s, MutedOn) ==> MuteOff(s) == s
    ensures forall j :: OccursAt(MuteOff(s), AutoplayKey, j) <==> OccursAt(s, AutoplayKey, j)
    ensures forall j :: OccursAt(MuteOff(s), MutedKey, j) <==> OccursAt(s, MutedKey, j)
  {
    if IndexOf(s, MutedOn).Some? {
      var i := IndexOf(s, MutedOn).value;
      ReplaceLastChar(s, MutedOn, MutedOff);
      assert s[i + 6] == '1' by { assert s[i..i + 7][6] == '1'; }
      forall j
        ensures OccursAt(MuteOff(s), AutoplayKey, j) <==> OccursAt(s, AutoplayKey, j)
        ensures OccursAt(MuteOff(s), MutedKey, j) <==> OccursAt(s, MutedKey, j)
      {
        SwapKeepsOccurrences(s, i + 6, '0', AutoplayKey, j);
        SwapKeepsOccurrences(s, i + 6, '0', MutedKey, j);
      }
    }
  }

  /** The new `src` the forEach body computes. */
  function Rewrite(src: string): string
  {
    MuteOff(ForceAutoplayOff(src))
  }

  /** The rewrite as a whole: `autoplay=` is always present afterwards, a
      `muted` parameter is never added or removed, the first `muted=1` of the
      original reads `muted=0`, and a URL that already has a non-1 autoplay
      value and no `muted=1` comes back unchanged. */
  lemma RewriteSpec(src: string)
    ensures Contains(Rewrite(src), AutoplayKey)
    ensures Contains(Rewrite(src), MutedKey) <==> Contains(src, MutedKey)
    ensures IndexOf(src, MutedOn).Some? ==>
              OccursAt(Rewrite(src), MutedOff, IndexOf(src, MutedOn).value)
    ensures !Contains(src, MutedOn) ==> Rewrite(src) == ForceAutoplayOff(src)
    ensures Contains(src, AutoplayKey) && !Contains(src, AutoplayOn) && !Contains(src, MutedOn)
            ==> Rewrite(src) == src
    ensures |Rewrite(src)| == if Contains(src, AutoplayKey) then |src| else |src| + 11
  {
    var a := ForceAutoplayOff(src);
    ForceAutoplayOffSpec(src);
    MuteOffSpec(a);
    IndexOfByOccurrences(a, src, MutedOn);
    assert Contains(a, AutoplayKey);
    if IndexOf(src, MutedOn).Some? {
      var i := IndexOf(src, MutedOn).value;
      assert a[i..i + 7] == MutedOn;
      assert Rewrite(src)[i..i + 7] == MutedOff;
    }
    if Contains(src, AutoplayKey) {
      if IndexOf(src, AutoplayOn).None? {
        assert a == src;
      }
    }
  }

  /** `if (src !== iframe.src) iframe.src = src`: the assignment made, if any. */
  function SrcAssignment(src: string): (r: Option<string>)
    ensures r.Some? ==> r.value == Rewrite(src)
    ensures r.Some? ==> r.value != src && Contains(r.value, AutoplayKey)
    ensures r.None? ==> Rewrite(src) == src
  {
    var s := Rewrite(src);
    RewriteSpec(src);
    if s != src then Some(s) else None
  }

  /** Which iframes get a new `src`: exactly those whose URL lacks the
      autoplay key, or has `autoplay=1`, or has `muted=1`. */
  lemma SrcAssignmentCases(src: string)
    ensures SrcAssignment(src).Some? <==>
              !Contains(src, AutoplayKey) || Contains(src, AutoplayOn) || Contains(src, MutedOn)
  {
    RewriteSpec(src);
    if IndexOf(src, AutoplayOn).Some? {
      AutoplayDigitChanges(src);
    }
    if IndexOf(src, MutedOn).Some? {
      MutedDigitChanges(src);
    }
  }

  lemma AutoplayDigitChanges(src: string)
    requires IndexOf(src, AutoplayOn).Some?
    ensures Rewrite(src) != src
  {
    var i := IndexOf(src, AutoplayOn).value;
    var a := ForceAutoplayOff(src);
    ReplaceCase(src, i);
    OnHasKey(src, i);
    assert a == src[i + 9 := '0'];
    MuteOffSpec(a);
    assert src[i + 9] == src[i..i + 10][9];
    assert Rewrite(src)[i + 9] == '0';
  }

  lemma MutedDigitChanges(src: string)
    requires IndexOf(src, MutedOn).Some?
    ensures Rewrite(src) != src
  {
    var i := IndexOf(src, MutedOn).value;
    RewriteSpec(src);
    assert src[i + 6] == src[i..i + 7][6];
    assert Rewrite(src)[i + 6] == Rewrite(src)[i..i + 7][6];
  }
}
