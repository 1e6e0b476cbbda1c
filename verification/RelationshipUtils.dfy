/**
 Type-level relationships: expansion into pairs in both directions, grouping by source, and
 compression. The source keeps pairs in hash sets of "source|target" keys, whose enumeration
 order is unspecified, so results are stated for every enumeration.
 */
module RelationshipUtils {
  import opened Seqs
  import opened Strings

  datatype Input = Input(source: string, targets: seq<string>)
  datatype Pair = Pair(source: string, target: string)
  datatype Grouped = Grouped(source: string, targets: seq<string>)

  predicate BarFree(tag: string) {
    '|' !in tag
  }

  function PairKey(p: Pair): (key: string) {
    p.source + "|" + p.target
  }

  function PairOfKey(key: string): (p: Pair)
    requires '|' in key
  {
    var parts := Split(key, '|');
    Pair(parts[0], parts[1])
  }

  /** Reading a key back gives the pair it was made from exactly when no tag holds a bar. */
  lemma KeyRoundTrip(p: Pair)
    ensures '|' in PairKey(p)
    ensures PairOfKey(PairKey(p)) == p <==> BarFree(p.source) && BarFree(p.target)
  {
  }

  lemma PairKeyInjective(p: Pair, q: Pair)
    requires BarFree(p.source) && BarFree(p.target) && BarFree(q.source) && BarFree(q.target)
    ensures PairKey(p) == PairKey(q) ==> p == q
  {
    KeyRoundTrip(p);
    KeyRoundTrip(q);
  }

  // ----- expandBidirectionalPairs

  function PairsOfTargets(source: string, targets: seq<string>): (ps: seq<Pair>) {
    if targets == [] then []
    else
      (if source == targets[0] then [Pair(source, source)]
       else [Pair(source, targets[0]), Pair(targets[0], source)])
      + PairsOfTargets(source, targets[1..])
  }

  function RawPairs(rels: seq<Input>): (ps: seq<Pair>) {
    if rels == [] then [] else PairsOfTargets(rels[0].source, rels[0].targets) + RawPairs(rels[1..])
  }

  function Keys(rels: seq<Input>): (keys: set<string>) {
    set p | p in RawPairs(rels) :: PairKey(p)
  }

  /** The list is one of the orders in which a hash set may give its elements. */
  ghost predicate Enumerates(keys: seq<string>, elements: set<string>) {
    NoDup(keys) && forall k :: k in keys <==> k in elements
  }

  function ExpandBidirectionalPairs(rels: seq<Input>, keys: seq<string>): (ps: seq<Pair>)
    requires Enumerates(keys, Keys(rels))
    ensures |ps| == |keys|
  {
    KeysHaveBars(rels);
    seq(|keys|, i requires 0 <= i < |keys| => PairOfKey(keys[i]))
  }

  lemma KeysHaveBars(rels: seq<Input>)
    ensures forall k :: k in Keys(rels) ==> '|' in k
  {
  }

  /** Some input relates s to t. */
  predicate Related(rels: seq<Input>, s: string, t: string) {
    exists i :: 0 <= i < |rels| && rels[i].source == s && t in rels[i].targets
  }

  lemma {:induction false} PairsOfTargetsMembers(source: string, targets: seq<string>, p: Pair)
    ensures p in PairsOfTargets(source, targets)
       <==> (p.source == source && p.target in targets) || (p.target == source && p.source in targets)
  {
    if targets != [] {
      PairsOfTargetsMembers(source, targets[1..], p);
    }
  }

  lemma {:induction false} RawPairsMembers(rels: seq<Input>, p: Pair)
    ensures p in RawPairs(rels) <==> Related(rels, p.source, p.target) || Related(rels, p.target, p.source)
  {
    if rels != [] {
      PairsOfTargetsMembers(rels[0].source, rels[0].targets, p);
      RawPairsMembers(rels[1..], p);
      RelatedSplits(rels, p.source, p.target);
      RelatedSplits(rels, p.target, p.source);
    }
  }

  lemma RelatedSplits(rels: seq<Input>, s: string, t: string)
    requires rels != []
    ensures Related(rels, s, t) <==> (rels[0].source == s && t in rels[0].targets) || Related(rels[1..], s, t)
  {
  }

  /** No tag of a relation that is stated has a bar; an input without targets states none. */
  predicate UsedTagsAreBarFree(rels: seq<Input>) {
    forall i :: 0 <= i < |rels| ==> forall t :: t in rels[i].targets ==> BarFree(rels[i].source) && BarFree(t)
  }

  lemma UsedTagsInPairs(rels: seq<Input>)
    ensures UsedTagsAreBarFree(rels) <==> forall p :: p in RawPairs(rels) ==> BarFree(p.source) && BarFree(p.target)
  {
    forall p | p in RawPairs(rels) && UsedTagsAreBarFree(rels)
      ensures BarFree(p.source) && BarFree(p.target)
    {
      RawPairsMembers(rels, p);
    }
    forall i, t | 0 <= i < |rels| && t in rels[i].targets
      ensures Pair(rels[i].source, t) in RawPairs(rels)
    {
      RawPairsMembers(rels, Pair(rels[i].source, t));
    }
  }

  /** A pair read back from a key has no bar, since the key was cut at its bars. */
  lemma ReadPairsAreBarFree(key: string)
    requires '|' in key
    ensures BarFree(PairOfKey(key).source) && BarFree(PairOfKey(key).target)
  {
    SplitJoin(key, '|');
  }

  /** Of the pairs that the inputs call for, exactly those without a bar come out. */
  lemma ExpansionKeepsBarFree(rels: seq<Input>, keys: seq<string>, p: Pair)
    requires Enumerates(keys, Keys(rels)) && p in RawPairs(rels)
    ensures p in ExpandBidirectionalPairs(rels, keys) <==> BarFree(p.source) && BarFree(p.target)
  {
    var ps := ExpandBidirectionalPairs(rels, keys);
    KeyRoundTrip(p);
    assert PairKey(p) in keys;
    var i :| 0 <= i < |keys| && keys[i] == PairKey(p);
    assert ps[i] == PairOfKey(keys[i]);
    if p in ps {
      var j :| 0 <= j < |ps| && ps[j] == p;
      assert keys[j] in keys;
      KeysHaveBars(rels);
      ReadPairsAreBarFree(keys[j]);
    }
  }

  /** Without bars, each key gives back the pair it was made from. */
  lemma ExpansionReadsBack(rels: seq<Input>, keys: seq<string>, i: nat)
    requires Enumerates(keys, Keys(rels)) && i < |keys| && UsedTagsAreBarFree(rels)
    ensures var p := ExpandBidirectionalPairs(rels, keys)[i];
      p in RawPairs(rels) && PairKey(p) == keys[i]
  {
    assert keys[i] in keys;
    var p :| p in RawPairs(rels) && keys[i] == PairKey(p);
    UsedTagsInPairs(rels);
    KeyRoundTrip(p);
  }

  /** The pairs are the symmetric closure of the inputs. */
  ghost predicate IsSymmetricClosure(ps: seq<Pair>, rels: seq<Input>) {
    forall p :: p in ps <==> Related(rels, p.source, p.target) || Related(rels, p.target, p.source)
  }

  /**
   The expansion is the symmetric closure of the inputs if and only if no related tag has a bar;
   and then each of its pairs comes once, in whatever order the hash set is read.
   */
  lemma ExpansionIsSymmetricClosureIff(rels: seq<Input>, keys: seq<string>)
    requires Enumerates(keys, Keys(rels))
    ensures IsSymmetricClosure(ExpandBidirectionalPairs(rels, keys), rels) <==> UsedTagsAreBarFree(rels)
    ensures UsedTagsAreBarFree(rels) ==> NoDup(ExpandBidirectionalPairs(rels, keys))
  {
    var ps := ExpandBidirectionalPairs(rels, keys);
    UsedTagsInPairs(rels);
    if UsedTagsAreBarFree(rels) {
      forall i | 0 <= i < |ps|
        ensures ps[i] in RawPairs(rels) && PairKey(ps[i]) == keys[i]
      {
        ExpansionReadsBack(rels, keys, i);
      }
    }
    forall p: Pair
      ensures p in RawPairs(rels) <==> Related(rels, p.source, p.target) || Related(rels, p.target, p.source)
      ensures p in RawPairs(rels) ==> (p in ps <==> BarFree(p.source) && BarFree(p.target))
    {
      RawPairsMembers(rels, p);
      if p in RawPairs(rels) {
        ExpansionKeepsBarFree(rels, keys, p);
      }
    }
  }

  // ----- groupPairsBySource

  function TargetsOf(ps: seq<Pair>, source: string): (ts: seq<string>) {
    Dedupe(Map((p: Pair) => p.target, ItemsOf(ps, (p: Pair) => p.source, source)))
  }

  function GroupPairsBySource(ps: seq<Pair>): (gs: seq<Grouped>) {
    Map(s => Grouped(s, TargetsOf(ps, s)), GroupKeys(ps, (p: Pair) => p.source))
  }

  lemma TargetsOfMembers(ps: seq<Pair>, s: string, t: string)
    ensures t in TargetsOf(ps, s) <==> Pair(s, t) in ps
  {
    var items := ItemsOf(ps, (p: Pair) => p.source, s);
    var ts := Map((p: Pair) => p.target, items);
    if t in ts {
      var i :| 0 <= i < |ts| && ts[i] == t;
      assert items[i] in items && items[i] == Pair(s, t);
    }
    if Pair(s, t) in ps {
      assert Pair(s, t) in items;
      var i :| 0 <= i < |items| && items[i] == Pair(s, t);
      assert ts[i] == t;
    }
  }

  /** Flattening the groups restores the pairs; every source comes once, with distinct targets. */
  lemma GroupingRestoresPairs(ps: seq<Pair>)
    ensures var gs := GroupPairsBySource(ps);
      && NoDup(Map((g: Grouped) => g.source, gs))
      && (forall g :: g in gs ==> NoDup(g.targets) && g.targets != [])
      && (forall s, t :: Pair(s, t) in ps <==> exists g :: g in gs && g.source == s && t in g.targets)
  {
    var gs, ks := GroupPairsBySource(ps), GroupKeys(ps, (p: Pair) => p.source);
    assert Map((g: Grouped) => g.source, gs) == ks;
    forall i | 0 <= i < |gs|
      ensures gs[i].targets != []
    {
      assert ks[i] in ks;
      var p :| p in ps && p.source == ks[i];
      TargetsOfMembers(ps, p.source, p.target);
    }
    forall s, t
      ensures Pair(s, t) in ps <==> exists g :: g in gs && g.source == s && t in g.targets
    {
      TargetsOfMembers(ps, s, t);
      if Pair(s, t) in ps {
        assert s in ks by {
          assert Pair(s, t).source == s;
        }
        var i :| 0 <= i < |ks| && ks[i] == s;
        assert gs[i].source == s && t in gs[i].targets;
      }
    }
  }

  // ----- compressRelationshipInputs

  function CompressRelationshipInputs(rels: seq<Input>): (out: seq<Input>) {
    Map(s => Input(s, CombinedTargets(rels, s)), GroupKeys(rels, (r: Input) => r.source))
  }

  function CombinedTargets(rels: seq<Input>, source: string): (ts: seq<string>) {
    Dedupe(Flatten(Map((r: Input) => r.targets, ItemsOf(rels, (r: Input) => r.source, source))))
  }

  lemma CombinedTargetsMembers(rels: seq<Input>, s: string, t: string)
    ensures t in CombinedTargets(rels, s) <==> Related(rels, s, t)
  {
    var items := ItemsOf(rels, (r: Input) => r.source, s);
    var lists := Map((r: Input) => r.targets, items);
    if t in Flatten(lists) {
      var i :| 0 <= i < |lists| && t in lists[i];
      assert items[i] in items;
      var j :| 0 <= j < |rels| && rels[j] == items[i];
      assert rels[j].source == s && t in rels[j].targets;
    }
    if Related(rels, s, t) {
      var j :| 0 <= j < |rels| && rels[j].source == s && t in rels[j].targets;
      assert rels[j] in items;
      var i :| 0 <= i < |items| && items[i] == rels[j];
      assert t in lists[i];
    }
  }

  /**
   Compression keeps the meaning, for any tags: the same types stay related, so the expansion
   runs over the same set of keys; and every source comes once, with distinct targets.
   */
  lemma CompressionPreservesMeaning(rels: seq<Input>)
    ensures var out := CompressRelationshipInputs(rels);
      && (forall s, t :: Related(out, s, t) <==> Related(rels, s, t))
      && Keys(out) == Keys(rels)
      && NoDup(Map((r: Input) => r.source, out))
      && forall r :: r in out ==> NoDup(r.targets)
  {
    var out, ks := CompressRelationshipInputs(rels), GroupKeys(rels, (r: Input) => r.source);
    assert Map((r: Input) => r.source, out) == ks;
    forall s, t
      ensures Related(out, s, t) <==> Related(rels, s, t)
    {
      CombinedTargetsMembers(rels, s, t);
      if Related(rels, s, t) {
        assert s in ks;
        var i :| 0 <= i < |ks| && ks[i] == s;
        assert out[i].source == s && t in out[i].targets;
      }
    }
    forall p: Pair
      ensures p in RawPairs(out) <==> p in RawPairs(rels)
    {
      RawPairsMembers(out, p);
      RawPairsMembers(rels, p);
    }
  }

  // ----- compressPairs

  datatype Compression = Compression(result: seq<Pair>, seen: set<string>)

  function CompressState(ps: seq<Pair>): (st: Compression) {
    if ps == [] then Compression([], {})
    else
      var st, p := CompressState(ps[..|ps| - 1]), ps[|ps| - 1];
      if PairKey(p) in st.seen then st
      else Compression(st.result + [p], st.seen + {PairKey(p)})
  }

  function CompressPairs(ps: seq<Pair>): (result: seq<Pair>) {
    CompressState(ps).result
  }

  lemma {:induction false} SeenKeys(ps: seq<Pair>)
    ensures CompressState(ps).seen == set p | p in ps :: PairKey(p)
  {
    if ps != [] {
      SeenKeys(ps[..|ps| - 1]);
      assert ps == ps[..|ps| - 1] + [ps[|ps| - 1]];
    }
  }

  /** Two different pairs never share a key. */
  ghost predicate KeysApart(ps: seq<Pair>) {
    forall p, q :: p in ps && q in ps && PairKey(p) == PairKey(q) ==> p == q
  }

  /**
   compressPairs keeps the first occurrence of every pair, in order, exactly when no two
   different pairs share a key; otherwise it drops the later of them.
   */
  lemma {:induction false} CompressPairsKeepsFirst(ps: seq<Pair>)
    ensures CompressPairs(ps) == Dedupe(ps) <==> KeysApart(ps)
    ensures forall p :: p in CompressPairs(ps) ==> p in ps
    ensures |CompressPairs(ps)| <= |Dedupe(ps)|
    ensures CompressPairs(ps) == Dedupe(ps) || |CompressPairs(ps)| < |Dedupe(ps)|
  {
    if ps != [] {
      var init, last := ps[..|ps| - 1], ps[|ps| - 1];
      assert ps == init + [last];
      CompressPairsKeepsFirst(init);
      SeenKeys(init);
      if last in init {
        assert PairKey(last) in CompressState(init).seen;
      } else if PairKey(last) in CompressState(init).seen {
        var q :| q in init && PairKey(q) == PairKey(last);
        assert q in ps && last in ps && q != last;
      }
    }
  }

  /** So for tags without a bar it always keeps exactly the first occurrences. */
  lemma CompressPairsWithoutBars(ps: seq<Pair>)
    requires forall p :: p in ps ==> BarFree(p.source) && BarFree(p.target)
    ensures CompressPairs(ps) == Dedupe(ps)
  {
    forall p, q | p in ps && q in ps && PairKey(p) == PairKey(q)
      ensures p == q
    {
      PairKeyInjective(p, q);
    }
    CompressPairsKeepsFirst(ps);
  }
}
