/** Facts about branches: where a commitment is created and spent, read pointwise. */
module BranchFacts {
  import opened Wrappers
  import opened Blocks

  /** Consensus rules of a branch the recovery relies on: a commitment is created
      at most once and spent at most once, never before it is created. */
  ghost predicate Consistent(blocks: seq<Block>) {
    forall c :: ConsistentAt(blocks, c)
  }

  ghost predicate ConsistentAt(blocks: seq<Block>, c: Commitment) {
    && multiset(CreatedOn(blocks))[c] <= 1
    && multiset(SpentOn(blocks))[c] <= 1
    && (SpentAt(blocks, c).Some? && OutputAt(blocks, c).Some? ==>
          OutputAt(blocks, c).value.block.height <= SpentAt(blocks, c).value)
  }

  lemma {:induction false} OutputInIff(outputs: seq<ScanOutput>, c: Commitment)
    ensures OutputIn(outputs, c).Some? <==> c in Created(outputs)
    ensures OutputIn(outputs, c).Some? ==>
      OutputIn(outputs, c).value in outputs && OutputIn(outputs, c).value.commitment == c
  {
    if outputs != [] {
      var n := |outputs| - 1;
      OutputInIff(outputs[..n], c);
      assert Created(outputs) == Created(outputs[..n]) + [outputs[n].commitment];
    }
  }

  lemma {:induction false} OutputAtIff(blocks: seq<Block>, c: Commitment)
    ensures OutputAt(blocks, c).Some? <==> c in CreatedOn(blocks)
    ensures OutputAt(blocks, c).Some? ==>
      var s := OutputAt(blocks, c).value;
      s.block in blocks && s.output in s.block.outputs && s.output.commitment == c
  {
    if blocks != [] {
      var n := |blocks| - 1;
      OutputInIff(blocks[n].outputs, c);
      OutputAtIff(blocks[..n], c);
    }
  }

  lemma {:induction false} SpentAtIff(blocks: seq<Block>, c: Commitment)
    ensures SpentAt(blocks, c).Some? <==> c in SpentOn(blocks)
    ensures SpentAt(blocks, c).Some? ==>
      exists b :: b in blocks && b.height == SpentAt(blocks, c).value && c in b.inputs
  {
    if blocks != [] {
      var n := |blocks| - 1;
      SpentAtIff(blocks[..n], c);
      if c in blocks[n].inputs {
        assert blocks[n] in blocks;
      } else if SpentAt(blocks[..n], c).Some? {
        var b :| b in blocks[..n] && b.height == SpentAt(blocks[..n], c).value && c in b.inputs;
        assert b in blocks;
      }
    }
  }

  lemma {:induction false} SiteAppend(a: seq<Block>, b: seq<Block>, c: Commitment)
    ensures OutputAt(a + b, c) == if OutputAt(b, c).Some? then OutputAt(b, c) else OutputAt(a, c)
    ensures SpentAt(a + b, c) == if SpentAt(b, c).Some? then SpentAt(b, c) else SpentAt(a, c)
  {
    if b == [] {
      assert a + b == a;
    } else {
      var n := |b| - 1;
      SiteAppend(a, b[..n], c);
      assert (a + b)[..|a + b| - 1] == a + b[..n];
      assert (a + b)[|a + b| - 1] == b[n];
    }
  }

  /** A consistent branch splits into two consistent parts that share no creation and no spend. */
  lemma ConsistentSplit(a: seq<Block>, b: seq<Block>, c: Commitment)
    requires ConsistentAt(a + b, c)
    ensures ConsistentAt(a, c) && ConsistentAt(b, c)
    ensures OutputAt(b, c).Some? ==> OutputAt(a, c).None?
    ensures SpentAt(b, c).Some? ==> SpentAt(a, c).None?
  {
    FlattenAppend(a, b);
    SiteAppend(a, b, c);
    OutputAtIff(a, c);
    OutputAtIff(b, c);
    SpentAtIff(a, c);
    SpentAtIff(b, c);
  }

  lemma ConsistentParts(a: seq<Block>, b: seq<Block>)
    requires Consistent(a + b)
    ensures Consistent(a) && Consistent(b)
  {
    forall c ensures ConsistentAt(a, c) && ConsistentAt(b, c) {
      ConsistentSplit(a, b, c);
    }
  }

  /** On a consistent branch the heights of a creation and a spend lie on the branch, in order. */
  lemma SiteHeights(blocks: seq<Block>, first: nat, c: Commitment)
    requires Linked(blocks, first)
    ensures OutputAt(blocks, c).Some? ==> first <= OutputAt(blocks, c).value.block.height < first + |blocks|
    ensures SpentAt(blocks, c).Some? ==> first <= SpentAt(blocks, c).value < first + |blocks|
  {
    OutputAtIff(blocks, c);
    SpentAtIff(blocks, c);
  }

  lemma LinkedParts(a: seq<Block>, b: seq<Block>, first: nat)
    requires Linked(a + b, first)
    ensures Linked(a, first) && Linked(b, first + |a|)
  {
    forall i | 0 <= i < |a| ensures a[i] == (a + b)[i] {}
    forall i | 0 <= i < |b| ensures b[i] == (a + b)[|a| + i] {}
    forall i | 0 < i < |a| ensures Joins(a, i) {
      assert Joins(a + b, i);
    }
    forall i | 0 < i < |b| ensures Joins(b, i) {
      assert Joins(a + b, |a| + i);
    }
  }

  lemma LinkedPrefix(blocks: seq<Block>, first: nat, k: nat)
    requires Linked(blocks, first) && k <= |blocks|
    ensures Linked(blocks[..k], first)
  {
    assert blocks == blocks[..k] + blocks[k..];
    LinkedParts(blocks[..k], blocks[k..], first);
  }

  // ----- the recognisers' lists, read pointwise

  function FindRestored(list: seq<Restored>, c: Commitment): Option<Restored> {
    if list == [] then None
    else if list[|list| - 1].commitment == c then Some(list[|list| - 1])
    else FindRestored(list[..|list| - 1], c)
  }

  ghost predicate DistinctKeys(list: seq<Restored>) {
    forall i, j :: 0 <= i < j < |list| ==> list[i].commitment != list[j].commitment
  }

  lemma {:induction false} FindRestoredIn(list: seq<Restored>, c: Commitment)
    ensures match FindRestored(list, c)
            case Some(r) => r in list && r.commitment == c
            case None => forall i :: 0 <= i < |list| ==> list[i].commitment != c
  {
    if list != [] {
      FindRestoredIn(list[..|list| - 1], c);
    }
  }

  lemma {:induction false} FindRestoredAppend(a: seq<Restored>, b: seq<Restored>, c: Commitment)
    ensures FindRestored(a + b, c) == if FindRestored(b, c).Some? then FindRestored(b, c) else FindRestored(a, c)
  {
    if b == [] {
      assert a + b == a;
    } else {
      assert (a + b)[..|a + b| - 1] == a + b[..|b| - 1];
      FindRestoredAppend(a, b[..|b| - 1], c);
    }
  }

  lemma {:induction false} UniqueOutput(outputs: seq<ScanOutput>, o: ScanOutput)
    requires o in outputs && multiset(Created(outputs))[o.commitment] <= 1
    ensures OutputIn(outputs, o.commitment) == Some(o)
  {
    var n := |outputs| - 1;
    var front := outputs[..n];
    assert Created(outputs) == Created(front) + [outputs[n].commitment];
    if outputs[n].commitment != o.commitment {
      UniqueOutput(front, o);
    }
  }

  lemma {:induction false} CapsuleOf(b: Block, outputs: seq<ScanOutput>, c: Commitment)
    requires multiset(Created(outputs))[c] <= 1
    ensures FindRestored(Capsules(b, outputs), c) ==
            match OutputIn(outputs, c)
            case Some(o) => if !o.proofOnly && o.owned.Some? then Some(CapsuleRestored(b, o)) else None
            case None => None
  {
    if outputs != [] {
      var n := |outputs| - 1;
      var front := outputs[..n];
      var o := outputs[n];
      assert Created(outputs) == Created(front) + [o.commitment];
      CapsuleOf(b, front, c);
      FindRestoredAppend(Capsules(b, front), if !o.proofOnly && o.owned.Some? then [CapsuleRestored(b, o)] else [], c);
      OutputInIff(front, c);
      if o.commitment == c {
        assert c !in multiset(Created(front));
      }
    }
  }

  lemma LegacyOf(b: Block, c: Commitment)
    requires multiset(Created(b.outputs))[c] <= 1
    ensures FindRestored(Legacy(b), c) ==
            match OutputIn(b.outputs, c)
            case Some(o) =>
              if o.proofOnly && o.owned.Some? && LegacyOutput(b, b.outputs) == Some(o) then Some(LegacyRestored(b, o))
              else None
            case None => None
  {
    OutputInIff(b.outputs, c);
    match LegacyOutput(b, b.outputs)
    case Some(o) =>
      if o.commitment == c {
        UniqueOutput(b.outputs, o);
      }
    case None =>
  }

  /** Both lists together report exactly what the wallet owns, and say which recogniser found it. */
  lemma {:induction false} ListsAreOwned(blocks: seq<Block>, c: Commitment)
    requires multiset(CreatedOn(blocks))[c] <= 1
    ensures var site := OutputAt(blocks, c);
            var capsule := site.Some? && !site.value.output.proofOnly;
            && FindRestored(CapsulesOn(blocks), c) == (if capsule then Recognised(site.value) else None)
            && FindRestored(LegacyOn(blocks), c) == (if site.Some? && !capsule then Recognised(site.value) else None)
  {
    if blocks != [] {
      var n := |blocks| - 1;
      var front, b := blocks[..n], blocks[n];
      ListsAreOwned(front, c);
      CapsuleOf(b, b.outputs, c);
      LegacyOf(b, c);
      FindRestoredAppend(CapsulesOn(front), Capsules(b, b.outputs), c);
      FindRestoredAppend(LegacyOn(front), Legacy(b), c);
      OutputInIff(b.outputs, c);
      OutputAtIff(front, c);
      if OutputIn(b.outputs, c).Some? {
        assert c !in multiset(CreatedOn(front));
      }
    }
  }

  // ----- no commitment is reported twice

  function Keys(list: seq<Restored>): (r: seq<Commitment>)
    ensures |r| == |list|
    ensures forall i :: 0 <= i < |r| ==> r[i] == list[i].commitment
  {
    seq(|list|, i requires 0 <= i < |list| => list[i].commitment)
  }

  lemma {:induction false} CapsuleKeys(b: Block, outputs: seq<ScanOutput>)
    ensures multiset(Keys(Capsules(b, outputs))) <= multiset(Created(outputs))
  {
    if outputs != [] {
      var n := |outputs| - 1;
      CapsuleKeys(b, outputs[..n]);
      assert Created(outputs) == Created(outputs[..n]) + [outputs[n].commitment];
      var o := outputs[n];
      var tail := if !o.proofOnly && o.owned.Some? then [CapsuleRestored(b, o)] else [];
      assert Keys(Capsules(b, outputs[..n]) + tail) == Keys(Capsules(b, outputs[..n])) + Keys(tail);
      assert Keys(tail) == [] || Keys(tail) == [o.commitment];
    }
  }

  lemma KeysAppend(a: seq<Restored>, b: seq<Restored>)
    ensures Keys(a + b) == Keys(a) + Keys(b)
  {
  }

  lemma {:induction false} ListKeys(blocks: seq<Block>)
    ensures multiset(Keys(CapsulesOn(blocks))) <= multiset(CreatedOn(blocks))
    ensures multiset(Keys(LegacyOn(blocks))) <= multiset(CreatedOn(blocks))
  {
    if blocks != [] {
      var n := |blocks| - 1;
      var b := blocks[n];
      ListKeys(blocks[..n]);
      hide Keys, Capsules, Legacy, Created;
      CapsuleKeys(b, b.outputs);
      LegacyKeys(b);
      KeysAppend(CapsulesOn(blocks[..n]), Capsules(b, b.outputs));
      KeysAppend(LegacyOn(blocks[..n]), Legacy(b));
    }
  }

  lemma LegacyKeys(b: Block)
    ensures multiset(Keys(Legacy(b))) <= multiset(Created(b.outputs))
  {
    if Legacy(b) != [] {
      var o := LegacyOutput(b, b.outputs).value;
      assert Keys(Legacy(b)) == [o.commitment];
      var i :| 0 <= i < |b.outputs| && b.outputs[i] == o;
      assert Created(b.outputs)[i] == o.commitment;
    }
  }

  lemma {:induction false} CountedTwice(s: seq<Commitment>, i: nat, j: nat)
    requires i < j < |s| && s[i] == s[j]
    ensures multiset(s)[s[i]] >= 2
  {
    assert s == s[..j] + s[j..];
    assert s[..j][i] == s[i];
    assert s[j..][0] == s[j];
    assert multiset(s) == multiset(s[..j]) + multiset(s[j..]);
    assert s[i] in multiset(s[..j]) && s[i] in multiset(s[j..]);
  }

  lemma ListsDistinct(blocks: seq<Block>)
    requires Consistent(blocks)
    ensures DistinctKeys(CapsulesOn(blocks)) && DistinctKeys(LegacyOn(blocks))
  {
    ListKeys(blocks);
    var capsules, legacy := CapsulesOn(blocks), LegacyOn(blocks);
    forall i, j | 0 <= i < j < |capsules| ensures capsules[i].commitment != capsules[j].commitment {
      assert ConsistentAt(blocks, capsules[i].commitment);
      if capsules[i].commitment == capsules[j].commitment {
        CountedTwice(Keys(capsules), i, j);
      }
    }
    forall i, j | 0 <= i < j < |legacy| ensures legacy[i].commitment != legacy[j].commitment {
      assert ConsistentAt(blocks, legacy[i].commitment);
      if legacy[i].commitment == legacy[j].commitment {
        CountedTwice(Keys(legacy), i, j);
      }
    }
  }

  // ----- the totals count positions

  ghost function Row(n: nat, outputs: seq<ScanOutput>): set<(nat, nat)> {
    set j: nat | j < |outputs| && outputs[j].proofOnly :: (n, j)
  }

  ghost function Places(n: nat, outputs: seq<ScanOutput>): set<(nat, nat)> {
    set j: nat | j < |outputs| :: (n, j)
  }

  /** The proof-only outputs of a branch, by block and position. */
  ghost function ProofOnlyPositions(branch: seq<Block>): set<(nat, nat)> {
    set i: nat, j: nat | i < |branch| && j < |branch[i].outputs| && branch[i].outputs[j].proofOnly :: (i, j)
  }

  ghost function OutputPositions(branch: seq<Block>): set<(nat, nat)> {
    set i: nat, j: nat | i < |branch| && j < |branch[i].outputs| :: (i, j)
  }

  lemma {:induction false} RowCounts(n: nat, outputs: seq<ScanOutput>)
    ensures |Row(n, outputs)| == ProofOnlyCount(outputs) && |Places(n, outputs)| == |outputs|
  {
    if outputs == [] {
      assert Row(n, outputs) == {} && Places(n, outputs) == {};
    } else {
      hide Row, Places;
      var k := |outputs| - 1;
      RowCounts(n, outputs[..k]);
      LastPlace(n, outputs);
      LastInRow(n, outputs);
    }
  }

  lemma LastPlace(n: nat, outputs: seq<ScanOutput>)
    requires outputs != []
    ensures var k: nat := |outputs| - 1;
      (n, k) !in Places(n, outputs[..k]) && Places(n, outputs) == Places(n, outputs[..k]) + {(n, k)}
  {
  }

  lemma LastInRow(n: nat, outputs: seq<ScanOutput>)
    requires outputs != []
    ensures var k: nat := |outputs| - 1;
      && (n, k) !in Row(n, outputs[..k])
      && Row(n, outputs) == Row(n, outputs[..k]) + (if outputs[k].proofOnly then {(n, k)} else {})
  {
  }

  /** The whole-history counters count positions: every output, and every proof-only output, exactly once. */
  lemma {:induction false} TotalsCount(branch: seq<Block>)
    ensures OutputTotal(branch) == |OutputPositions(branch)|
    ensures ProofOnlyTotal(branch) == |ProofOnlyPositions(branch)|
  {
    hide ProofOnlyCount;
    if branch == [] {
      assert OutputPositions(branch) == {} && ProofOnlyPositions(branch) == {};
    } else {
      var n := |branch| - 1;
      var front, outputs := branch[..n], branch[n].outputs;
      TotalsCount(front);
      RowCounts(n, outputs);
      hide OutputPositions, ProofOnlyPositions, Row, Places;
      LastPlaces(branch);
      LastRow(branch);
    }
  }

  lemma LastPlaces(branch: seq<Block>)
    requires branch != []
    ensures var n := |branch| - 1;
      && OutputPositions(branch) == OutputPositions(branch[..n]) + Places(n, branch[n].outputs)
      && OutputPositions(branch[..n]) !! Places(n, branch[n].outputs)
  {
    var n := |branch| - 1;
    var all, parts := OutputPositions(branch), OutputPositions(branch[..n]) + Places(n, branch[n].outputs);
    forall p ensures p in all <==> p in parts {
      assert 0 <= p.0 < n ==> branch[..n][p.0] == branch[p.0];
    }
  }

  lemma LastRow(branch: seq<Block>)
    requires branch != []
    ensures var n := |branch| - 1;
      && ProofOnlyPositions(branch) == ProofOnlyPositions(branch[..n]) + Row(n, branch[n].outputs)
      && ProofOnlyPositions(branch[..n]) !! Row(n, branch[n].outputs)
  {
    var n := |branch| - 1;
    var all, parts := ProofOnlyPositions(branch), ProofOnlyPositions(branch[..n]) + Row(n, branch[n].outputs);
    forall p ensures p in all <==> p in parts {
      assert 0 <= p.0 < n ==> branch[..n][p.0] == branch[p.0];
    }
  }

  // ----- what owning an output means

  lemma {:induction false} OutputInIs(outputs: seq<ScanOutput>, j: nat, c: Commitment)
    requires j < |outputs| && outputs[j].commitment == c && multiset(Created(outputs))[c] <= 1
    ensures OutputIn(outputs, c) == Some(outputs[j])
  {
    var n := |outputs| - 1;
    var front := Created(outputs[..n]);
    assert Created(outputs) == front + [outputs[n].commitment];
    if j < n {
      assert front[j] == c;
      OutputInIs(outputs[..n], j, c);
    }
  }

  /** On a branch that creates a commitment once, its site is where it is. */
  lemma {:induction false} SiteIs(branch: seq<Block>, i: nat, j: nat, c: Commitment)
    requires multiset(CreatedOn(branch))[c] <= 1 && i < |branch| && j < |branch[i].outputs|
    requires branch[i].outputs[j].commitment == c
    ensures OutputAt(branch, c) == Some(Site(branch[i], branch[i].outputs[j]))
    ensures multiset(Created(branch[i].outputs))[c] <= 1
  {
    hide Created, OutputIn;
    var n := |branch| - 1;
    if i == n {
      OutputInIs(branch[n].outputs, j, c);
    } else {
      SiteIs(branch[..n], i, j, c);
      OutputAtIff(branch[..n], c);
      OutputInIff(branch[n].outputs, c);
    }
  }

  /** The wallet owns the output at block `i`, position `j`: a capsule it can open, or the block's own coinbase from
      before capsules, which it derives from the height. */
  ghost predicate OwnsThere(branch: seq<Block>, i: nat, j: nat, c: Commitment, f: Found) {
    && i < |branch| && j < |branch[i].outputs|
    && var b, o, r := branch[i], branch[i].outputs[j], f.restored;
       && o.commitment == c && o.owned.Some?
       && f.position == o.position && r.commitment == c && r.height == b.height && r.blockHash == b.hash
       && r.blinding == o.owned.value.blinding
       && if !o.proofOnly then
            && r.value == o.owned.value.value && r.account == o.owned.value.account && r.index == o.owned.value.index
            && r.domain == o.owned.value.domain && r.isCoinbase == o.isCoinbase
          else
            && o.isCoinbase && c == b.coinbaseCommitment
            && r.value == b.coinbaseValue && r.account == 0 && r.index == b.height && r.domain == Coinbase
              && r.isCoinbase
  }

  lemma OwnsSite(b: Block, j: nat, c: Commitment, f: Found)
    requires j < |b.outputs| && b.outputs[j].commitment == c && multiset(Created(b.outputs))[c] <= 1
    ensures OwnsThere([b], 0, j, c, f) <==>
      var r := Recognised(Site(b, b.outputs[j])); r.Some? && f == Found(r.value, b.outputs[j].position)
  {
    hide OutputIn, Created;
    var o := b.outputs[j];
    assert o in b.outputs;
    var l := LegacyOutput(b, b.outputs);
    if l.Some? && l.value.commitment == c {
      var k :| 0 <= k < |b.outputs| && b.outputs[k] == l.value;
      OutputInIs(b.outputs, k, c);
      OutputInIs(b.outputs, j, c);
    }
  }

  /** What a branch says about a commitment: it is owned, as this and there, if and only if it is. */
  lemma OwnedAtIff(branch: seq<Block>, c: Commitment, f: Found)
    requires ConsistentAt(branch, c)
    ensures OwnedAt(branch, c) == Some(f) <==> exists i: nat, j: nat :: OwnsThere(branch, i, j, c, f)
  {
    hide OutputAt, CreatedOn, Recognised, SpentAt, SpentOn;
    OutputAtIff(branch, c);
    if OwnedAt(branch, c) == Some(f) {
      var s := OutputAt(branch, c).value;
      var i :| 0 <= i < |branch| && branch[i] == s.block;
      var j :| 0 <= j < |branch[i].outputs| && branch[i].outputs[j] == s.output;
      SiteIs(branch, i, j, c);
      OwnsSite(branch[i], j, c, f);
      assert OwnsThere(branch, i, j, c, f);
    } else if i: nat, j: nat :| OwnsThere(branch, i, j, c, f) {
      SiteIs(branch, i, j, c);
      OwnsSite(branch[i], j, c, f);
    }
  }
}
