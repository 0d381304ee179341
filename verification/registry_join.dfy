/** Lines 21-31 of scripts/build-data.ts: the two field-group responses are
    joined by `cca3` and narrowed to UN members.

    The first group goes into a JavaScript `Map` keyed by `cca3`. A `Map`
    keeps keys in first-insertion order, and setting an existing key
    replaces its value without moving it, so a repeated code keeps the
    position of its first entry and the fields of its last one. */
module RegistryJoin {
  import opened Wrappers
  import opened Registry
  import opened Seqs

  /** An entry of the second field group: only the code, currencies and
      languages are requested. */
  datatype Extras = Extras(cca3: string, currencies: Option<seq<Currency>>, languages: Option<seq<string>>)

  function Codes(m: seq<RestCountry>): (r: seq<string>)
    ensures |r| == |m| && forall i :: 0 <= i < |m| ==> r[i] == m[i].cca3
  {
    seq(|m|, i requires 0 <= i < |m| => m[i].cca3)
  }

  ghost predicate DistinctCodes(m: seq<RestCountry>) {
    forall i, j :: 0 <= i < j < |m| ==> m[i].cca3 != m[j].cca3
  }

  /** The last entry of `g` with code `k`, if any. */
  function LastWith(g: seq<RestCountry>, k: string): (r: Option<RestCountry>)
    ensures r.Some? ==> r.value in g && r.value.cca3 == k
    ensures r.None? <==> forall i :: 0 <= i < |g| ==> g[i].cca3 != k
    decreases |g|
  {
    if |g| == 0 then None
    else if g[|g| - 1].cca3 == k then Some(g[|g| - 1])
    else LastWith(g[..|g| - 1], k)
  }

  /** The position of the first entry of `g` with code `k`; `|g|` if none. */
  function FirstIndex(g: seq<RestCountry>, k: string): (r: nat)
    ensures r <= |g|
    ensures r < |g| ==> g[r].cca3 == k
    ensures forall i :: 0 <= i < r ==> g[i].cca3 != k
    decreases |g|
  {
    if |g| == 0 then 0
    else if g[0].cca3 == k then 0
    else 1 + FirstIndex(g[1..], k)
  }

  lemma FirstIndexOfAppend(p: seq<RestCountry>, c: RestCountry, k: string)
    ensures FirstIndex(p + [c], k)
      == if FirstIndex(p, k) < |p| then FirstIndex(p, k)
         else if c.cca3 == k then |p| else |p| + 1
  {
    var g := p + [c];
    var f := FirstIndex(p, k);
    if f < |p| {
      assert g[f] == p[f];
    } else if c.cca3 == k {
      assert g[|p|].cca3 == k;
    }
  }

  /** `map.set(c.cca3, c)`. */
  function Upsert(m: seq<RestCountry>, c: RestCountry): (r: seq<RestCountry>)
    requires DistinctCodes(m)
    ensures c.cca3 in Codes(m) ==> |r| == |m| && forall i :: 0 <= i < |m| ==> r[i] == if m[i].cca3 == c.cca3 then c else m[i]
    ensures c.cca3 !in Codes(m) ==> r == m + [c]
    decreases |m|
  {
    if |m| == 0 then [c]
    else if m[0].cca3 == c.cca3 then [c] + m[1..]
    else
      UpsertStep(m, c);
      [m[0]] + Upsert(m[1..], c)
  }

  /** Past a first entry with another code, the rest is still distinct and
      holds the code exactly when the whole does. */
  lemma UpsertStep(m: seq<RestCountry>, c: RestCountry)
    requires DistinctCodes(m) && |m| > 0 && m[0].cca3 != c.cca3
    ensures DistinctCodes(m[1..])
    ensures c.cca3 in Codes(m) <==> c.cca3 in Codes(m[1..])
  {
    assert Codes(m) == [m[0].cca3] + Codes(m[1..]);
  }

  /** A code that occurs in `g` has a last entry. */
  lemma LastWithOfPresent(g: seq<RestCountry>, k: int)
    requires 0 <= k < |g|
    ensures LastWith(g, g[k].cca3).Some?
    decreases |g|
  {
    if g[|g| - 1].cca3 != g[k].cca3 {
      assert g[..|g| - 1][k] == g[k];
      LastWithOfPresent(g[..|g| - 1], k);
    }
  }

  lemma LastWithOfAppend(p: seq<RestCountry>, c: RestCountry, k: string)
    ensures LastWith(p + [c], k) == if c.cca3 == k then Some(c) else LastWith(p, k)
  {
    assert (p + [c])[..|p|] == p;
  }

  /** `r` is what the `Map` built from `g` holds: one entry per code, each
      the last entry of `g` with that code, every code of `g` present, codes
      in order of first appearance. */
  ghost predicate KeyedFrom(g: seq<RestCountry>, r: seq<RestCountry>) {
    && DistinctCodes(r)
    && (forall i :: 0 <= i < |r| ==> LastWith(g, r[i].cca3) == Some(r[i]))
    && (forall k :: 0 <= k < |g| ==> g[k].cca3 in Codes(r))
    && (forall i, j :: 0 <= i < j < |r| ==> FirstIndex(g, r[i].cca3) < FirstIndex(g, r[j].cca3))
  }

  /** A code that is somewhere in `p` has its first position inside `p`. */
  lemma FirstIndexOfPresent(p: seq<RestCountry>, c: RestCountry)
    requires c in p
    ensures FirstIndex(p, c.cca3) < |p|
  {
    var k :| 0 <= k < |p| && p[k] == c;
  }

  /** A code absent from `m` is absent from `p` too, when `m` was keyed
      from `p`. */
  lemma FirstIndexOfAbsent(p: seq<RestCountry>, m: seq<RestCountry>, k: string)
    requires KeyedFrom(p, m) && k !in Codes(m)
    ensures FirstIndex(p, k) == |p|
  {
  }

  /** Appending a new code keeps the codes of `m` distinct and each entry
      the last of its code. */
  lemma NewCodeKeepsLast(p: seq<RestCountry>, m: seq<RestCountry>, c: RestCountry)
    requires KeyedFrom(p, m) && c.cca3 !in Codes(m)
    ensures DistinctCodes(m + [c])
    ensures forall i :: 0 <= i < |m| + 1 ==> LastWith(p + [c], (m + [c])[i].cca3) == Some((m + [c])[i])
  {
    var r := m + [c];
    forall i, j | 0 <= i < j < |r| ensures r[i].cca3 != r[j].cca3 {
      assert r[i] == m[i] && Codes(m)[i] == m[i].cca3;
    }
    forall i | 0 <= i < |r| ensures LastWith(p + [c], r[i].cca3) == Some(r[i]) {
      LastWithOfAppend(p, c, r[i].cca3);
      if i < |m| {
        assert r[i] == m[i] && Codes(m)[i] == m[i].cca3;
      }
    }
  }

  /** Appending a new code keeps every code present. */
  lemma NewCodeKeepsCodes(p: seq<RestCountry>, m: seq<RestCountry>, c: RestCountry)
    requires KeyedFrom(p, m) && c.cca3 !in Codes(m)
    ensures forall k :: 0 <= k < |p| + 1 ==> (p + [c])[k].cca3 in Codes(m + [c])
  {
    var g := p + [c];
    var r := m + [c];
    forall k | 0 <= k < |g| ensures g[k].cca3 in Codes(r) {
      if k < |p| {
        assert g[k] == p[k] && p[k].cca3 in Codes(m);
        var i :| 0 <= i < |m| && Codes(m)[i] == p[k].cca3;
        assert Codes(r)[i] == p[k].cca3;
      } else {
        assert Codes(r)[|m|] == c.cca3;
      }
    }
  }

  /** Appending a new code keeps the codes in order of first appearance:
      the old codes keep their first positions, all inside `p`, and the new
      code first appears at the end. */
  lemma NewCodeKeepsOrder(p: seq<RestCountry>, m: seq<RestCountry>, c: RestCountry)
    requires KeyedFrom(p, m) && c.cca3 !in Codes(m)
    ensures forall i, j :: 0 <= i < j < |m| + 1 ==> FirstIndex(p + [c], (m + [c])[i].cca3) < FirstIndex(p + [c], (m + [c])[j].cca3)
  {
    var g := p + [c];
    var r := m + [c];
    FirstIndexOfAbsent(p, m, c.cca3);
    FirstIndexOfAppend(p, c, c.cca3);
    assert FirstIndex(g, r[|m|].cca3) == |p|;
    forall i | 0 <= i < |m| ensures FirstIndex(g, r[i].cca3) == FirstIndex(p, m[i].cca3) < |p| {
      assert r[i] == m[i];
      FirstIndexOfPresent(p, m[i]);
      FirstIndexOfAppend(p, c, m[i].cca3);
    }
  }

  lemma KeyedStepNewCode(p: seq<RestCountry>, m: seq<RestCountry>, c: RestCountry)
    requires KeyedFrom(p, m) && c.cca3 !in Codes(m)
    ensures KeyedFrom(p + [c], m + [c])
  {
    NewCodeKeepsLast(p, m, c);
    NewCodeKeepsCodes(p, m, c);
    NewCodeKeepsOrder(p, m, c);
  }

  lemma KeyedStepKnownCode(p: seq<RestCountry>, m: seq<RestCountry>, c: RestCountry, r: seq<RestCountry>)
    requires KeyedFrom(p, m) && c.cca3 in Codes(m)
    requires |r| == |m| && forall i :: 0 <= i < |m| ==> r[i] == if m[i].cca3 == c.cca3 then c else m[i]
    ensures KeyedFrom(p + [c], r)
  {
    var g := p + [c];
    assert forall i :: 0 <= i < |m| ==> r[i].cca3 == m[i].cca3;
    assert Codes(r) == Codes(m);
    forall i | 0 <= i < |r| ensures LastWith(g, r[i].cca3) == Some(r[i]) {
      LastWithOfAppend(p, c, r[i].cca3);
    }
    forall k | 0 <= k < |g| ensures g[k].cca3 in Codes(r) {
      if k < |p| {
        assert g[k] == p[k];
      }
    }
    forall i, j | 0 <= i < j < |r| ensures FirstIndex(g, r[i].cca3) < FirstIndex(g, r[j].cca3) {
      FirstIndexOfPresent(p, m[i]);
      FirstIndexOfPresent(p, m[j]);
      FirstIndexOfAppend(p, c, m[i].cca3);
      FirstIndexOfAppend(p, c, m[j].cca3);
    }
  }

  /** One more first-group entry: `Upsert` keeps the keyed invariant. */
  lemma KeyedStep(g: seq<RestCountry>, m: seq<RestCountry>)
    requires |g| > 0 && KeyedFrom(g[..|g| - 1], m)
    ensures KeyedFrom(g, Upsert(m, g[|g| - 1]))
  {
    var p := g[..|g| - 1];
    var c := g[|g| - 1];
    assert g == p + [c];
    if c.cca3 in Codes(m) {
      KeyedStepKnownCode(p, m, c, Upsert(m, c));
    } else {
      KeyedStepNewCode(p, m, c);
    }
  }

  /** `Array.from(new Map(group1.map(c => [c.cca3, c])).values())`: one
      entry per code, codes in order of first appearance, each carrying the
      fields of the last entry with its code. */
  function Keyed(g: seq<RestCountry>): (r: seq<RestCountry>)
    ensures KeyedFrom(g, r)
    decreases |g|
  {
    if |g| == 0 then []
    else
      var m := Keyed(g[..|g| - 1]);
      KeyedStep(g, m);
      Upsert(m, g[|g| - 1])
  }

  /** The currencies and languages of a second-group entry take the place
      of the first-group entry's own. */
  function WithExtras(c: RestCountry, e: Extras): RestCountry {
    c.(currencies := e.currencies, languages := e.languages)
  }

  /** The last second-group entry with code `k`, if any. */
  function LastExtras(g: seq<Extras>, k: string): (r: Option<Extras>)
    ensures r.Some? ==> r.value in g && r.value.cca3 == k
    ensures r.None? <==> forall i :: 0 <= i < |g| ==> g[i].cca3 != k
    decreases |g|
  {
    if |g| == 0 then None
    else if g[|g| - 1].cca3 == k then Some(g[|g| - 1])
    else LastExtras(g[..|g| - 1], k)
  }

  /** A first-group entry as it stands after the whole second group has
      been applied. */
  function Joined(c: RestCountry, g2: seq<Extras>): (r: RestCountry)
    ensures r == c.(currencies := r.currencies, languages := r.languages)
  {
    match LastExtras(g2, c.cca3)
    case None => c
    case Some(e) => WithExtras(c, e)
  }

  /** One step of `group2.forEach`: the entry with the same code, if any,
      takes the second entry's currencies and languages. */
  function ApplyExtras(m: seq<RestCountry>, e: Extras): (r: seq<RestCountry>)
    ensures |r| == |m|
    ensures forall i :: 0 <= i < |m| ==> r[i].cca3 == m[i].cca3
    ensures forall i :: 0 <= i < |m| && m[i].cca3 != e.cca3 ==> r[i] == m[i]
    ensures forall i :: 0 <= i < |m| && m[i].cca3 == e.cca3 ==>
      && r[i].currencies == e.currencies && r[i].languages == e.languages
      && r[i] == m[i].(currencies := r[i].currencies, languages := r[i].languages)
  {
    seq(|m|, i requires 0 <= i < |m| => if m[i].cca3 == e.cca3 then WithExtras(m[i], e) else m[i])
  }

  /** `group2.forEach(...)`: every entry keeps its own fields and position,
      takes currencies and languages from the last second-group entry with
      its code, and second-group entries without a match add nothing. */
  function Overlay(m: seq<RestCountry>, g2: seq<Extras>): (r: seq<RestCountry>)
    ensures |r| == |m|
    ensures forall i :: 0 <= i < |m| ==> r[i] == Joined(m[i], g2)
    decreases |g2|
  {
    if |g2| == 0 then m
    else ApplyExtras(Overlay(m, g2[..|g2| - 1]), g2[|g2| - 1])
  }

  predicate IsUnMember(c: RestCountry) {
    c.unMember == Some(true)
  }

  /** The UN members of the joined registry, in `Map` order. */
  function Members(g1: seq<RestCountry>, g2: seq<Extras>): seq<RestCountry> {
    Filter(IsUnMember, Overlay(Keyed(g1), g2))
  }

  /** Where each member comes from: member `i` is the joined form of entry
      `src[i]` of the keyed registry, and the positions increase. */
  lemma MemberSources(g1: seq<RestCountry>, g2: seq<Extras>) returns (src: seq<int>)
    ensures var m := Keyed(g1); var ms := Members(g1, g2);
      && |src| == |ms|
      && (forall i :: 0 <= i < |ms| ==> 0 <= src[i] < |m| && ms[i] == Joined(m[src[i]], g2))
      && (forall i, j :: 0 <= i < j < |ms| ==> src[i] < src[j])
  {
    var o := Overlay(Keyed(g1), g2);
    src := FilterPicksPositions(IsUnMember, o);
  }

  /** Each member is a UN member and is the last first-group entry of its
      code, joined with the second group; an entry whose `unMember` is
      false or missing never gets through. */
  lemma MembersAreJoinedUnMembers(g1: seq<RestCountry>, g2: seq<Extras>)
    ensures var ms := Members(g1, g2);
      forall i :: 0 <= i < |ms| ==>
        && IsUnMember(ms[i])
        && LastWith(g1, ms[i].cca3).Some?
        && ms[i] == Joined(LastWith(g1, ms[i].cca3).value, g2)
  {
    var m := Keyed(g1);
    var ms := Members(g1, g2);
    var src := MemberSources(g1, g2);
    forall i | 0 <= i < |ms|
      ensures IsUnMember(ms[i]) && LastWith(g1, ms[i].cca3).Some?
      ensures ms[i] == Joined(LastWith(g1, ms[i].cca3).value, g2)
    {
      assert ms[i].cca3 == m[src[i]].cca3;
    }
  }

  /** The UN member at a given position of the keyed registry is emitted. */
  lemma KeyedMemberIsEmitted(g1: seq<RestCountry>, g2: seq<Extras>, i: int)
    requires 0 <= i < |Keyed(g1)| && IsUnMember(Keyed(g1)[i])
    ensures Joined(Keyed(g1)[i], g2) in Members(g1, g2)
  {
    var o := Overlay(Keyed(g1), g2);
    assert o[i] == Joined(Keyed(g1)[i], g2);
    assert IsUnMember(o[i]);
  }

  /** The last first-group entry of each code sits in the keyed registry. */
  lemma LastEntryIsKeyed(g1: seq<RestCountry>, k: int) returns (i: int)
    requires 0 <= k < |g1|
    ensures 0 <= i < |Keyed(g1)| && LastWith(g1, g1[k].cca3) == Some(Keyed(g1)[i])
  {
    var m := Keyed(g1);
    assert g1[k].cca3 in Codes(m);
    i :| 0 <= i < |m| && Codes(m)[i] == g1[k].cca3;
  }

  /** Every code whose last first-group entry is a UN member is emitted. */
  lemma MembersAreComplete(g1: seq<RestCountry>, g2: seq<Extras>)
    ensures forall k :: 0 <= k < |g1| ==>
      var last := LastWith(g1, g1[k].cca3);
      last.Some? && (IsUnMember(last.value) ==> Joined(last.value, g2) in Members(g1, g2))
  {
    forall k | 0 <= k < |g1|
      ensures LastWith(g1, g1[k].cca3).Some?
      ensures IsUnMember(LastWith(g1, g1[k].cca3).value) ==> Joined(LastWith(g1, g1[k].cca3).value, g2) in Members(g1, g2)
    {
      var i := LastEntryIsKeyed(g1, k);
      if IsUnMember(Keyed(g1)[i]) {
        KeyedMemberIsEmitted(g1, g2, i);
      }
    }
  }

  /** Members have distinct codes, in order of the codes' first appearance
      in the first group. */
  lemma MembersAreOrdered(g1: seq<RestCountry>, g2: seq<Extras>)
    ensures DistinctCodes(Members(g1, g2))
    ensures var ms := Members(g1, g2);
      forall i, j :: 0 <= i < j < |ms| ==> FirstIndex(g1, ms[i].cca3) < FirstIndex(g1, ms[j].cca3)
  {
    var m := Keyed(g1);
    var ms := Members(g1, g2);
    var src := MemberSources(g1, g2);
    forall i, j | 0 <= i < j < |ms|
      ensures ms[i].cca3 != ms[j].cca3 && FirstIndex(g1, ms[i].cca3) < FirstIndex(g1, ms[j].cca3)
    {
      assert ms[i].cca3 == m[src[i]].cca3 && ms[j].cca3 == m[src[j]].cca3;
    }
  }
}
