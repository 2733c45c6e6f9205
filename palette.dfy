/**
 * The indexed-PNG colour table: an ordered list of colours, appended to only
 * when no entry already matches (checkAndAddToColorPalette), with the
 * background colour moved or inserted at index 0 (setFirstColorInPalette).
 * The functions say what each operation produces; the ColorPalette class
 * performs them in place, as the source does on its array.
 */
module Palette {
  import opened Wrappers
  import opened Colors

  /** Some entry of p matches c. */
  predicate HasMatch(m: ColorMatch, p: seq<Color>, c: Color) {
    exists i :: 0 <= i < |p| && Matches(m, c, p[i])
  }

  /** No two entries of p match each other. */
  predicate Distinct(m: ColorMatch, p: seq<Color>) {
    forall i, j :: 0 <= i < j < |p| ==> !Matches(m, p[i], p[j])
  }

  /** checkAndAddToColorPalette: c is appended exactly when nothing matches it. */
  function AddIfAbsent(m: ColorMatch, p: seq<Color>, c: Color): (r: seq<Color>)
    ensures |p| <= |r| <= |p| + 1 && r[..|p|] == p
    ensures |r| == |p| + 1 <==> !HasMatch(m, p, c)
    ensures |r| == |p| + 1 ==> r[|p|] == c
    ensures HasMatch(m, r, c)
  {
    if HasMatch(m, p, c) then p else p + [c]
  }

  /** checkAndAddToColorPalette never lets two matching entries in. */
  lemma AddIfAbsentKeepsDistinct(m: ColorMatch, p: seq<Color>, c: Color)
    requires Distinct(m, p)
    ensures Distinct(m, AddIfAbsent(m, p, c))
  {
    if !HasMatch(m, p, c) {
      var r := p + [c];
      forall i, j | 0 <= i < j < |r| ensures !Matches(m, r[i], r[j]) {
        if j == |p| {
          MatchesIsEquivalence(m, c, r[i], c);
          assert !Matches(m, c, p[i]);
        }
      }
    }
  }

  lemma AddIfAbsentIdempotent(m: ColorMatch, p: seq<Color>, c: Color)
    ensures AddIfAbsent(m, AddIfAbsent(m, p, c), c) == AddIfAbsent(m, p, c)
  {
  }

  /** The palette after checkAndAddToColorPalette of each of cs in turn. */
  function AddAll(m: ColorMatch, p: seq<Color>, cs: seq<Color>): (r: seq<Color>)
    decreases |cs|
    ensures |p| <= |r| <= |p| + |cs| && r[..|p|] == p
  {
    if cs == [] then p
    else AddIfAbsent(m, AddAll(m, p, cs[..|cs| - 1]), cs[|cs| - 1])
  }

  /**
   * After adding cs: every colour of cs has a matching entry, every new
   * entry is one of cs, and a duplicate-free palette is still duplicate-free.
   */
  lemma {:induction false} AddAllFacts(m: ColorMatch, p: seq<Color>, cs: seq<Color>)
    decreases |cs|
    ensures var r := AddAll(m, p, cs);
      (forall k :: 0 <= k < |cs| ==> HasMatch(m, r, cs[k])) &&
      (forall k :: |p| <= k < |r| ==> r[k] in cs) &&
      (Distinct(m, p) ==> Distinct(m, r))
  {
    if cs != [] {
      var init, last := cs[..|cs| - 1], cs[|cs| - 1];
      AddAllFacts(m, p, init);
      var q := AddAll(m, p, init);
      var r := AddIfAbsent(m, q, last);
      assert r == AddAll(m, p, cs);
      forall k | 0 <= k < |cs| - 1 ensures HasMatch(m, r, cs[k]) {
        assert cs[k] == init[k];
        var i :| 0 <= i < |q| && Matches(m, cs[k], q[i]);
        assert r[i] == q[i];
      }
      forall k | |p| <= k < |r| ensures r[k] in cs {
        if k < |q| {
          assert r[k] == q[k] && q[k] in init;
        }
      }
      if Distinct(m, p) {
        AddIfAbsentKeepsDistinct(m, q, last);
      }
    }
  }

  /** Adding one more colour after a list is one more checkAndAddToColorPalette. */
  lemma AddAllSnoc(m: ColorMatch, p: seq<Color>, cs: seq<Color>, c: Color)
    ensures AddAll(m, p, cs + [c]) == AddIfAbsent(m, AddAll(m, p, cs), c)
  {
    assert (cs + [c])[..|cs|] == cs;
  }

  /** Adding a list in two parts is adding it at once. */
  lemma {:induction false} AddAllAppend(m: ColorMatch, p: seq<Color>, a: seq<Color>, b: seq<Color>)
    decreases |b|
    ensures AddAll(m, p, a + b) == AddAll(m, AddAll(m, p, a), b)
  {
    if b == [] {
      assert a + b == a;
    } else {
      var ab, init, last := a + b, b[..|b| - 1], b[|b| - 1];
      assert ab[..|ab| - 1] == a + init;
      assert ab[|ab| - 1] == last;
      calc {
        AddAll(m, p, ab);
        AddIfAbsent(m, AddAll(m, p, a + init), last);
        { AddAllAppend(m, p, a, init); }
        AddIfAbsent(m, AddAll(m, AddAll(m, p, a), init), last);
        AddAll(m, AddAll(m, p, a), b);
      }
    }
  }

  /** The index of the first entry matching c, as the scan in the source finds it. */
  function FirstMatch(m: ColorMatch, p: seq<Color>, c: Color): (r: Option<nat>)
    ensures r.Some? ==> r.value < |p| && Matches(m, c, p[r.value])
    ensures r.Some? ==> forall k :: 0 <= k < r.value ==> !Matches(m, c, p[k])
    ensures r.None? <==> !HasMatch(m, p, c)
  {
    if p == [] then None
    else if Matches(m, c, p[0]) then Some(0)
    else
      match FirstMatch(m, p[1..], c)
      case None =>
        assert forall i :: 1 <= i < |p| ==> p[i] == p[1..][i - 1];
        None
      case Some(i) => Some(i + 1)
  }

  lemma FirstMatchIs(m: ColorMatch, p: seq<Color>, c: Color, i: nat)
    requires i < |p| && Matches(m, c, p[i])
    requires forall k :: 0 <= k < i ==> !Matches(m, c, p[k])
    ensures FirstMatch(m, p, c) == Some(i)
  {
    var r := FirstMatch(m, p, c);
    assert HasMatch(m, p, c);
    assert r.value >= i;
    assert r.value <= i;
  }

  /** p without its entry at index i, as `splice(i, 1)` leaves it. */
  function RemoveAt(p: seq<Color>, i: nat): (r: seq<Color>)
    requires i < |p|
    ensures |r| == |p| - 1
    ensures forall k :: 0 <= k < |r| ==> r[k] == if k < i then p[k] else p[k + 1]
  {
    p[..i] + p[i + 1..]
  }

  /**
   * setFirstColorInPalette: with skipCheck, c is put in front
   * unconditionally; otherwise nothing changes when index 0 already matches,
   * and else the first matching entry (if any) is taken out and c is put in
   * front.
   */
  function PlaceFirst(m: ColorMatch, p: seq<Color>, c: Color, skipCheck: bool): (r: seq<Color>)
    ensures |r| > 0 && Matches(m, c, r[0])
    ensures skipCheck ==> r == [c] + p
    ensures !skipCheck && |p| > 0 && Matches(m, c, p[0]) ==> r == p
    ensures !skipCheck && !HasMatch(m, p, c) ==> r == [c] + p
    ensures !skipCheck && |p| > 0 && HasMatch(m, p, c) && !Matches(m, c, p[0]) ==>
      exists i :: 0 < i < |p| && Matches(m, c, p[i]) && (forall j :: 0 <= j < i ==> !Matches(m, c, p[j])) &&
        r == [c] + p[..i] + p[i + 1..]
    ensures !skipCheck ==> |r| == if HasMatch(m, p, c) then |p| else |p| + 1
    ensures forall e :: e in r ==> e == c || e in p
    ensures !skipCheck ==> forall e :: e in p && !Matches(m, c, e) ==> e in r
  {
    if skipCheck then [c] + p
    else
      match FirstMatch(m, p, c)
      case None => [c] + p
      case Some(i) =>
        if i == 0 then p
        else
          RemoveAtKeeps(p, i);
          assert [c] + RemoveAt(p, i) == [c] + p[..i] + p[i + 1..];
          [c] + RemoveAt(p, i)
  }

  /** Taking out entry i keeps every colour that is not that entry. */
  lemma RemoveAtKeeps(p: seq<Color>, i: nat)
    requires i < |p|
    ensures forall e :: e in p && e != p[i] ==> e in RemoveAt(p, i)
  {
    var rest := RemoveAt(p, i);
    forall e | e in p && e != p[i] ensures e in rest {
      var j :| 0 <= j < |p| && p[j] == e;
      if j < i { assert rest[j] == e; } else { assert rest[j - 1] == e; }
    }
  }

  /** In a duplicate-free palette at most one entry matches a given colour. */
  lemma DistinctSingleMatch(m: ColorMatch, p: seq<Color>, c: Color, i: nat, j: nat)
    requires Distinct(m, p) && i < |p| && j < |p|
    requires Matches(m, c, p[i]) && Matches(m, c, p[j])
    ensures i == j
  {
    MatchesIsEquivalence(m, c, p[i], p[j]);
    MatchesIsEquivalence(m, p[i], c, p[j]);
    MatchesIsEquivalence(m, p[i], p[j], c);
    assert Matches(m, p[i], p[j]) && Matches(m, p[j], p[i]);
  }

  /** Putting c in front keeps a palette duplicate-free exactly when nothing in it matches c. */
  lemma PrependDistinct(m: ColorMatch, p: seq<Color>, c: Color)
    requires Distinct(m, p)
    ensures Distinct(m, [c] + p) <==> !HasMatch(m, p, c)
  {
    var r := [c] + p;
    if HasMatch(m, p, c) {
      var i :| 0 <= i < |p| && Matches(m, c, p[i]);
      assert r[0] == c && r[i + 1] == p[i];
    } else {
      forall i, j | 0 <= i < j < |r| ensures !Matches(m, r[i], r[j]) {
        if i == 0 {
          assert r[j] == p[j - 1];
          assert !Matches(m, c, p[j - 1]);
        } else {
          assert r[i] == p[i - 1] && r[j] == p[j - 1];
        }
      }
    }
  }

  /** Without skipCheck, a duplicate-free palette stays duplicate-free. */
  lemma PlaceFirstKeepsDistinct(m: ColorMatch, p: seq<Color>, c: Color)
    requires Distinct(m, p)
    ensures Distinct(m, PlaceFirst(m, p, c, false))
  {
    match FirstMatch(m, p, c)
    case None =>
      PrependDistinct(m, p, c);
    case Some(i) =>
      if i > 0 {
        var rest := RemoveAt(p, i);
        forall a, b | 0 <= a < b < |rest| ensures !Matches(m, rest[a], rest[b]) {
          var a', b' := if a < i then a else a + 1, if b < i then b else b + 1;
          assert rest[a] == p[a'] && rest[b] == p[b'] && a' < b';
        }
        forall k | 0 <= k < |rest| ensures !Matches(m, c, rest[k]) {
          var k' := if k < i then k else k + 1;
          assert rest[k] == p[k'];
          if Matches(m, c, p[k']) {
            DistinctSingleMatch(m, p, c, i, k');
          }
        }
        PrependDistinct(m, rest, c);
      }
  }

  /** With skipCheck, the palette stays duplicate-free exactly when nothing in it matches c. */
  lemma PlaceFirstSkipDistinct(m: ColorMatch, p: seq<Color>, c: Color)
    requires Distinct(m, p)
    ensures Distinct(m, PlaceFirst(m, p, c, true)) <==> !HasMatch(m, p, c)
  {
    PrependDistinct(m, p, c);
  }

  /** Placing the same colour first twice is placing it once, unless skipCheck. */
  lemma PlaceFirstIdempotent(m: ColorMatch, p: seq<Color>, c: Color)
    ensures PlaceFirst(m, PlaceFirst(m, p, c, false), c, false) == PlaceFirst(m, p, c, false)
  {
  }

  /** With skipCheck every call adds one more entry: two calls leave c at index 0 and 1. */
  lemma PlaceFirstSkipRepeats(m: ColorMatch, p: seq<Color>, c: Color)
    ensures var r := PlaceFirst(m, PlaceFirst(m, p, c, true), c, true);
      |r| == |p| + 2 && r[0] == c && r[1] == c && !Distinct(m, r)
  {
    var r := PlaceFirst(m, PlaceFirst(m, p, c, true), c, true);
    MatchesIsEquivalence(m, c, c, c);
    assert r[0] == c && r[1] == c;
  }

  /** A colour table updated in place, as the source's `Color[]` is. */
  class ColorPalette {
    var colors: seq<Color>

    constructor (initial: seq<Color>)
      ensures colors == initial
    {
      colors := initial;
    }

    /** checkAndAddToColorPalette */
    method CheckAndAdd(m: ColorMatch, c: Color)
      modifies this
      ensures colors == AddIfAbsent(m, old(colors), c)
    {
      var i := 0;
      var length := |colors|;
      while i < length
        invariant 0 <= i <= length == |colors| && colors == old(colors)
        invariant forall k :: 0 <= k < i ==> !Matches(m, c, colors[k])
      {
        if Matches(m, c, colors[i]) {
          return;
        }
        i := i + 1;
      }
      colors := colors + [c];
    }

    /** setFirstColorInPalette; the earlier version is this with skipCheck false. */
    method SetFirst(m: ColorMatch, c: Color, skipCheck: bool := false)
      modifies this
      ensures colors == PlaceFirst(m, old(colors), c, skipCheck)
    {
      if skipCheck {
        colors := [c] + colors;
        return;
      }
      var i := 0;
      var length := |colors|;
      while i < length
        invariant 0 <= i <= length == |colors| && colors == old(colors)
        invariant forall k :: 0 <= k < i ==> !Matches(m, c, colors[k])
      {
        if Matches(m, c, colors[i]) {
          FirstMatchIs(m, colors, c, i);
          if i == 0 {
            return;
          }
          colors := colors[..i] + colors[i + 1..];
          break;
        }
        i := i + 1;
      }
      colors := [c] + colors;
    }
  }
}
