/**
 The convention that decides which end of an edge is its source: ids whose first letter is
 in A-M come before all others, and ids of the same half are ordered as strings.
 */
module EdgeDirection {
  import opened Strings

  datatype Direction = Directed(source: string, target: string) | EmptyId

  /**
   Whether the lower-case form of the id's first character lies between 'a' and 'm'. Apart
   from the ASCII letters this holds of U+0130, whose lower-case form is 'i' and a combining
   dot, and of the Kelvin sign U+212A, whose lower-case form is 'k'.
   */
  predicate InFirstHalf(id: string)
    requires id != ""
  {
    'a' <= id[0] <= 'm' || 'A' <= id[0] <= 'M' || id[0] as int == 0x130 || id[0] as int == 0x212A
  }

  function Decode(idA: string, idB: string): (d: Direction) {
    if idA == "" || idB == "" then EmptyId
    else if idA == idB then Directed(idA, idB)
    else if InFirstHalf(idA) != InFirstHalf(idB) then
      if InFirstHalf(idA) then Directed(idA, idB) else Directed(idB, idA)
    else if Less(idA, idB) then Directed(idA, idB)
    else Directed(idB, idA)
  }

  /** a is strictly before b: the edge between them runs from a to b. */
  predicate Before(a: string, b: string) {
    a != b && Decode(a, b) == Directed(a, b)
  }

  /** The edge from a to b is oriented as the convention asks. */
  predicate Canonical(a: string, b: string) {
    Decode(a, b) == Directed(a, b)
  }

  /**
   The direction of an edge does not depend on the side it is found from, its ends are the
   two ids, and orienting an oriented edge changes nothing. It fails exactly on an empty id.
   */
  lemma DecodeIsSymmetricAndIdempotent(a: string, b: string)
    ensures Decode(a, b) == Decode(b, a)
    ensures Decode(a, b).EmptyId? <==> a == "" || b == ""
    ensures Decode(a, b).Directed? ==>
      var d := Decode(a, b);
      Decode(d.source, d.target) == d && multiset{d.source, d.target} == multiset{a, b}
  {
    if a != "" && b != "" && a != b && InFirstHalf(a) == InFirstHalf(b) {
      LessConnected(a, b);
      if Less(a, b) {
        LessAsymmetric(a, b);
      } else {
        LessAsymmetric(b, a);
      }
    }
  }

  /** The first character of the lower-case form of c; of other letters than these it never lies in a..z. */
  function Lower(c: char): (l: char) {
    if 'A' <= c <= 'Z' then (c as int + 32) as char
    else if c == '\U{130}' then 'i'
    else if c == '\U{212A}' then 'k'
    else c
  }

  /**
   The convention in letters. When the first character of only one id lower-cases into a..m, that
   id is the source. Else it is the id with the smaller code unit at the first place where the two
   differ, or the shorter one when it ends there.
   */
  lemma SourceInLetters(a: string, b: string)
    requires a != "" && b != "" && a != b
    ensures var early, other := 'a' <= Lower(a[0]) <= 'm', 'a' <= Lower(b[0]) <= 'm';
      && (early && !other ==> Decode(a, b) == Directed(a, b))
      && (other && !early ==> Decode(a, b) == Directed(b, a))
      && (early == other && UnitsBefore(Utf16(a), Utf16(b)) ==> Decode(a, b) == Directed(a, b))
      && (early == other && UnitsBefore(Utf16(b), Utf16(a)) ==> Decode(a, b) == Directed(b, a))
      && (UnitsBefore(Utf16(a), Utf16(b)) <==> !UnitsBefore(Utf16(b), Utf16(a)))
  {
    LessIsUnitOrder(a, b);
    LessIsUnitOrder(b, a);
    LessConnected(a, b);
    if Less(a, b) {
      LessAsymmetric(a, b);
    }
    LowerInFirstHalf(a);
    LowerInFirstHalf(b);
  }

  lemma LowerInFirstHalf(id: string)
    requires id != ""
    ensures InFirstHalf(id) <==> 'a' <= Lower(id[0]) <= 'm'
  {
  }

  /** On non-empty ids the convention is a strict total order. */
  lemma BeforeIsStrictTotalOrder(a: string, b: string, c: string)
    requires a != "" && b != "" && c != ""
    ensures !Before(a, a)
    ensures a != b ==> (Before(a, b) <==> !Before(b, a))
    ensures Before(a, b) && Before(b, c) ==> Before(a, c)
  {
    DecodeIsSymmetricAndIdempotent(a, b);
    if Before(a, b) && Before(b, c) {
      if InFirstHalf(a) == InFirstHalf(b) == InFirstHalf(c) {
        LessTransitive(a, b, c);
        LessIrreflexive(a);
      }
    }
  }

  /** Every step of the path follows one of the given edges. */
  predicate Path(p: seq<string>, edges: set<(string, string)>) {
    forall i :: 0 <= i < |p| - 1 ==> (p[i], p[i + 1]) in edges
  }

  lemma {:induction false} PathAscends(p: seq<string>, edges: set<(string, string)>, k: nat)
    requires forall e :: e in edges ==> Canonical(e.0, e.1)
    requires Path(p, edges) && k < |p|
    ensures k > 0 ==> p[0] != "" && p[k] != ""
    ensures forall i :: 0 <= i < k ==> p[i] == p[k] || Before(p[i], p[k])
  {
    if k > 0 {
      PathAscends(p, edges, k - 1);
      assert (p[k - 1], p[k]) in edges;
      forall i | 0 <= i < k
        ensures p[i] == p[k] || Before(p[i], p[k])
      {
        if p[i] != p[k - 1] && p[k - 1] != p[k] {
          BeforeIsStrictTotalOrder(p[i], p[k - 1], p[k]);
        }
      }
    }
  }

  /** Oriented edges have no directed cycle other than self loops. */
  lemma NoDirectedCycle(p: seq<string>, edges: set<(string, string)>)
    requires forall e :: e in edges ==> Canonical(e.0, e.1)
    requires |p| > 0 && Path(p, edges) && p[0] == p[|p| - 1]
    ensures forall i :: 0 <= i < |p| ==> p[i] == p[0]
  {
    forall i | 0 < i < |p|
      ensures p[i] == p[0]
    {
      PathAscends(p, edges, i);
      PathAscends(p, edges, |p| - 1);
      if p[i] != p[0] {
        BeforeIsStrictTotalOrder(p[0], p[i], p[0]);
      }
    }
  }

  // ----- the key of the edge found for a relationship

  /** How a relation key shows in the relationship type. */
  function Middle(relKey: string): (m: string) {
    if '_' in relKey then "_" + relKey + "_" else "_has_"
  }

  datatype EdgeEnds = EdgeEnds(source: string, sourceTag: string, target: string, targetTag: string,
    relationshipType: string)

  /**
   The edge written for the relation relKey found on the entity `from`, pointing to the
   entity `to`; none when one of the ids is empty, where the source throws.
   */
  function EdgeFor(from: string, fromTag: string, to: string, toTag: string, relKey: string): (e: seq<EdgeEnds>) {
    match Decode(from, to)
    case EmptyId => []
    case Directed(source, target) =>
      var sourceTag := if source == from then fromTag else toTag;
      var targetTag := if target == to then toTag else fromTag;
      [EdgeEnds(source, sourceTag, target, targetTag, sourceTag + Middle(relKey) + targetTag)]
  }

  /**
   Each type tag stays with the id it was read with, however the edge is turned, and the type is
   spelled from its source: the tags around the key when that has a '_', and around "has" if not.
   */
  lemma TagsFollowIds(from: string, fromTag: string, to: string, toTag: string, relKey: string)
    ensures |EdgeFor(from, fromTag, to, toTag, relKey)| == if from == "" || to == "" then 0 else 1
    ensures forall e :: e in EdgeFor(from, fromTag, to, toTag, relKey) ==>
      && multiset{(e.source, e.sourceTag), (e.target, e.targetTag)} == multiset{(from, fromTag), (to, toTag)}
      && Canonical(e.source, e.target)
      && e.relationshipType == e.sourceTag + "_" + (if '_' in relKey then relKey else "has") + "_" + e.targetTag
  {
    DecodeIsSymmetricAndIdempotent(from, to);
    MiddleInLetters(relKey);
    var m := if '_' in relKey then relKey else "has";
    forall e | e in EdgeFor(from, fromTag, to, toTag, relKey)
      ensures e.relationshipType == e.sourceTag + "_" + m + "_" + e.targetTag
    {
      assert e.sourceTag + ("_" + m + "_") + e.targetTag == e.sourceTag + "_" + m + "_" + e.targetTag;
    }
  }

  lemma MiddleInLetters(relKey: string)
    ensures Middle(relKey) == "_" + (if '_' in relKey then relKey else "has") + "_"
  {
  }

  lemma SameEndsSameMiddle(a: string, m: string, n: string, b: string)
    requires a + m + b == a + n + b
    ensures m == n
  {
    assert |m| == |n|;
    assert m == (a + m + b)[|a|..|a| + |m|];
    assert n == (a + n + b)[|a|..|a| + |n|];
  }

  /**
   Two entities that refer to each other are joined by one edge, whichever of them is read
   first, if and only if the two relation keys show alike and it is not one entity read under
   two type tags. Keys show alike when they are equal or neither has '_'.
   */
  lemma EdgeFoundFromEitherSide(a: string, tagA: string, b: string, tagB: string, keyA: string, keyB: string)
    requires a != "" && b != ""
    ensures EdgeFor(a, tagA, b, tagB, keyA) == EdgeFor(b, tagB, a, tagA, keyB)
       <==> (a != b || tagA == tagB) && Middle(keyA) == Middle(keyB)
    ensures Middle(keyA) == Middle(keyB) <==> keyA == keyB || ('_' !in keyA && '_' !in keyB)
  {
    DecodeIsSymmetricAndIdempotent(a, b);
    var e, f := EdgeFor(a, tagA, b, tagB, keyA)[0], EdgeFor(b, tagB, a, tagA, keyB)[0];
    if e == f {
      SameEndsSameMiddle(e.sourceTag, Middle(keyA), Middle(keyB), e.targetTag);
    }
    MiddleTellsKeysApart(keyA, keyB);
  }

  lemma MiddleTellsKeysApart(k: string, l: string)
    ensures Middle(k) == Middle(l) <==> k == l || ('_' !in k && '_' !in l)
  {
    assert Middle(k)[1..|Middle(k)| - 1] == if '_' in k then k else "has";
    assert Middle(l)[1..|Middle(l)| - 1] == if '_' in l then l else "has";
  }

  /** The type of the edge between two entities, spelled from its source to its target. */
  function SpelledType(from: string, fromTag: string, to: string, toTag: string, relKey: string): (t: string) {
    if Canonical(from, to) then fromTag + Middle(relKey) + toTag else toTag + Middle(relKey) + fromTag
  }

  /** A spelled type reads back as its parts when the tags have no '_'. */
  lemma TypeReadsBack(a: string, m: string, b: string, c: string, n: string, d: string)
    requires '_' !in a && '_' !in b && '_' !in c && '_' !in d
    requires m != "" && m[0] == '_' && m[|m| - 1] == '_' && n != "" && n[0] == '_' && n[|n| - 1] == '_'
    requires a + m + b == c + n + d
    ensures a == c && m == n && b == d
  {
    var t := a + m + b;
    assert t == c + n + d;
    assert forall i :: 0 <= i < |a| ==> t[i] == a[i];
    assert forall i :: 0 <= i < |c| ==> t[i] == c[i];
    assert t[|a|] == '_' && t[|c|] == '_';
    assert forall i :: |t| - |b| <= i < |t| ==> t[i] == b[i - (|t| - |b|)];
    assert forall i :: |t| - |d| <= i < |t| ==> t[i] == d[i - (|t| - |d|)];
    assert t[|t| - |b| - 1] == '_' && t[|t| - |d| - 1] == '_';
    assert a == t[..|a|] && c == t[..|c|];
    assert b == t[|t| - |b|..] && d == t[|t| - |d|..];
    assert m == t[|a|..|t| - |b|] && n == t[|c|..|t| - |d|];
  }

  /** One pair of entities, each read under the same tag as before, and relation keys that show alike. */
  predicate SameRelation(
    a: string, tagA: string, b: string, tagB: string, k: string, c: string, tagC: string, d: string, tagD: string,
    l: string)
  {
    && multiset{(a, tagA), (b, tagB)} == multiset{(c, tagC), (d, tagD)}
    && (a == b ==> tagA == tagC)
    && Middle(k) == Middle(l)
  }

  /**
   Two relations fall on one edge key, ends and spelled type, whenever they are the same relation
   from one side or the other; and for tags without '_' only then.
   */
  lemma OneKeyIff(
    a: string, tagA: string, b: string, tagB: string, k: string, c: string, tagC: string, d: string, tagD: string,
    l: string)
    requires a != "" && b != "" && c != "" && d != ""
    ensures SameRelation(a, tagA, b, tagB, k, c, tagC, d, tagD, l) ==>
      Decode(a, b) == Decode(c, d) && SpelledType(a, tagA, b, tagB, k) == SpelledType(c, tagC, d, tagD, l)
    ensures '_' !in tagA && '_' !in tagB && '_' !in tagC && '_' !in tagD ==>
      (SameRelation(a, tagA, b, tagB, k, c, tagC, d, tagD, l) <==>
       Decode(a, b) == Decode(c, d) && SpelledType(a, tagA, b, tagB, k) == SpelledType(c, tagC, d, tagD, l))
  {
    DecodeIsSymmetricAndIdempotent(a, b);
    DecodeIsSymmetricAndIdempotent(c, d);
    SameRelationSides(a, tagA, b, tagB, k, c, tagC, d, tagD, l);
    if '_' !in tagA && '_' !in tagB && '_' !in tagC && '_' !in tagD && Decode(a, b) == Decode(c, d)
       && SpelledType(a, tagA, b, tagB, k) == SpelledType(c, tagC, d, tagD, l) {
      var (s, t) := if Canonical(a, b) then (tagA, tagB) else (tagB, tagA);
      var (u, v) := if Canonical(c, d) then (tagC, tagD) else (tagD, tagC);
      TypeReadsBack(s, Middle(k), t, u, Middle(l), v);
    }
  }

  lemma SameRelationSides(
    a: string, tagA: string, b: string, tagB: string, k: string, c: string, tagC: string, d: string, tagD: string,
    l: string)
    ensures SameRelation(a, tagA, b, tagB, k, c, tagC, d, tagD, l) <==>
      && Middle(k) == Middle(l) && (a == b ==> tagA == tagC)
      && (((a, tagA) == (c, tagC) && (b, tagB) == (d, tagD)) || ((a, tagA) == (d, tagD) && (b, tagB) == (c, tagC)))
  {
    var m, n := multiset{(a, tagA), (b, tagB)}, multiset{(c, tagC), (d, tagD)};
    if m == n {
      assert (a, tagA) in n;
      if (a, tagA) == (c, tagC) {
        assert m - multiset{(a, tagA)} == multiset{(b, tagB)} && n - multiset{(c, tagC)} == multiset{(d, tagD)};
        assert (b, tagB) in n - multiset{(c, tagC)};
      } else {
        assert m - multiset{(a, tagA)} == multiset{(b, tagB)} && n - multiset{(d, tagD)} == multiset{(c, tagC)};
        assert (b, tagB) in n - multiset{(d, tagD)};
      }
    }
  }
}
