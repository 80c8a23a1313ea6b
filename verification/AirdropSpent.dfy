/**
 * The field of spent airdrop positions: one bit per leaf, kept in step with
 * the blocks of the active chain as they are connected and disconnected.
 */
module AirdropSpent {
  import opened Basics
  import opened Wire
  import opened AirdropProofs
  import opened AirdropReaders

  const FIELD_SIZE: nat := (AIRDROP_TREE_LEAVES + 7) / 8

  // ---------- bits ----------

  /** The most significant bit of a byte is the first position. */
  function Mask(i: nat): bv8
  {
    var r := i % 8;
    if r == 0 then 128 else if r == 1 then 64 else if r == 2 then 32 else if r == 3 then 16
    else if r == 4 then 8 else if r == 5 then 4 else if r == 6 then 2 else 1
  }

  /** It is one shifted to the left by what remains of seven. */
  lemma MaskIsShift(i: nat)
    ensures Mask(i) == (1 as bv8) << (7 - i % 8)
  {
    var r := i % 8;
    assert r == 0 || r == 1 || r == 2 || r == 3 || r == 4 || r == 5 || r == 6 || r == 7;
  }

  predicate BitIn(b: bv8, i: nat)
  {
    b & Mask(i) != 0
  }

  predicate OneBit(m: bv8)
  {
    m == 1 || m == 2 || m == 4 || m == 8 || m == 16 || m == 32 || m == 64 || m == 128
  }

  lemma SetAlgebra(b: bv8, m: bv8, n: bv8)
    requires OneBit(m) && OneBit(n)
    ensures (b | m) & n != 0 <==> m == n || b & n != 0
  {
  }

  lemma ClearAlgebra(b: bv8, m: bv8, n: bv8)
    requires OneBit(m) && OneBit(n)
    ensures b & !m & n != 0 <==> m != n && b & n != 0
  {
  }

  lemma MaskInjective(i: nat, j: nat)
    requires i < 8 && j < 8
    ensures OneBit(Mask(i)) && (Mask(i) == Mask(j) <==> i == j)
  {
  }

  lemma BitSet(b: bv8, i: nat, j: nat)
    requires i < 8 && j < 8
    ensures BitIn(b | Mask(i), j) <==> i == j || BitIn(b, j)
  {
    MaskInjective(i, j);
    MaskInjective(j, i);
    SetAlgebra(b, Mask(i), Mask(j));
  }

  lemma BitCleared(b: bv8, i: nat, j: nat)
    requires i < 8 && j < 8
    ensures BitIn(b & !Mask(i), j) <==> i != j && BitIn(b, j)
  {
    MaskInjective(i, j);
    MaskInjective(j, i);
    ClearAlgebra(b, Mask(i), Mask(j));
  }

  lemma SameBits(b: bv8, c: bv8)
    requires forall i: nat :: i < 8 ==> BitIn(b, i) == BitIn(c, i)
    ensures b == c
  {
    assert BitIn(b, 0) == BitIn(c, 0) && BitIn(b, 1) == BitIn(c, 1);
    assert BitIn(b, 2) == BitIn(c, 2) && BitIn(b, 3) == BitIn(c, 3);
    assert BitIn(b, 4) == BitIn(c, 4) && BitIn(b, 5) == BitIn(c, 5);
    assert BitIn(b, 6) == BitIn(c, 6) && BitIn(b, 7) == BitIn(c, 7);
  }

  predicate BitAt(bits: seq<bv8>, b: nat, i: nat)
    requires b < |bits|
  {
    BitIn(bits[b], i)
  }

  /** The bytes hold exactly the positions of a set; the padding after the last leaf is zero. */
  ghost predicate Represents(bits: seq<bv8>, spent: set<nat>)
  {
    && |bits| == FIELD_SIZE
    && (forall p :: p in spent ==> p < AIRDROP_TREE_LEAVES)
    && (forall b: nat, i: nat {:trigger BitAt(bits, b, i)} :: b < FIELD_SIZE && i < 8 ==>
          (BitAt(bits, b, i) <==> 8 * b + i in spent))
  }

  /** A set of positions has only one representation. */
  lemma RepresentationUnique(a: seq<bv8>, b: seq<bv8>, spent: set<nat>)
    requires Represents(a, spent) && Represents(b, spent)
    ensures a == b
  {
    forall k: nat | k < FIELD_SIZE
      ensures a[k] == b[k]
    {
      forall i: nat | i < 8
        ensures BitIn(a[k], i) == BitIn(b[k], i)
      {
        assert BitAt(a, k, i) == BitAt(b, k, i);
      }
      SameBits(a[k], b[k]);
    }
  }

  lemma SetPosition(bits: seq<bv8>, spent: set<nat>, q: nat, r: nat)
    requires Represents(bits, spent) && q < FIELD_SIZE && r < 8 && 8 * q + r < AIRDROP_TREE_LEAVES
    ensures Represents(bits[q := bits[q] | Mask(r)], spent + {8 * q + r})
  {
    var after := bits[q := bits[q] | Mask(r)];
    forall b: nat, i: nat | b < FIELD_SIZE && i < 8
      ensures BitAt(after, b, i) <==> 8 * b + i in spent + {8 * q + r}
    {
      BitSet(bits[b], r, i);
      assert BitAt(bits, b, i) <==> 8 * b + i in spent;
    }
  }

  lemma ClearPosition(bits: seq<bv8>, spent: set<nat>, q: nat, r: nat)
    requires Represents(bits, spent) && q < FIELD_SIZE && r < 8
    ensures Represents(bits[q := bits[q] & !Mask(r)], spent - {8 * q + r})
  {
    var after := bits[q := bits[q] & !Mask(r)];
    forall b: nat, i: nat | b < FIELD_SIZE && i < 8
      ensures BitAt(after, b, i) <==> 8 * b + i in spent - {8 * q + r}
    {
      BitCleared(bits[b], r, i);
      assert BitAt(bits, b, i) <==> 8 * b + i in spent;
    }
  }

  lemma ZeroField()
    ensures Represents(seq(FIELD_SIZE, _ => 0), {})
  {
  }

  // ---------- blocks ----------

  datatype TxIn = TxIn(nullOutpoint: bool, stack: seq<Bytes>)
  datatype TxOut = TxOut(covenant: nat)
  /** A transaction and a block as far as airdrop claims are concerned. */
  datatype ClaimTx = ClaimTx(ins: seq<TxIn>, outs: seq<TxOut>)
  datatype ClaimBlock = ClaimBlock(txns: seq<ClaimTx>)

  const COVENANT_NONE: nat := 0

  datatype InputProof = Malformed | NoProof | Claims(position: nat)

  /** What input i of a coinbase says: a proof belongs to the output with the same index, if that has no covenant. */
  function InputAt(tx: ClaimTx, i: nat): (r: InputProof)
    requires i < |tx.ins|
    ensures r.Claims? ==> r.position < AIRDROP_TREE_LEAVES
  {
    if i >= |tx.outs| then Malformed
    else if tx.outs[i].covenant != COVENANT_NONE then NoProof
    else if |tx.ins[i].stack| != 1 then Malformed
    else
      match ParseProof(tx.ins[i].stack[0])
      case None => Malformed
      case Some(p) =>
        if !IsSane(p) then Malformed
        else
          match Position(p)
          case None => Malformed
          case Some(position) => Claims(position)
  }

  predicate IsCoinBase(tx: ClaimTx)
  {
    |tx.ins| > 0 && tx.ins[0].nullOutpoint
  }

  function Inputs(tx: ClaimTx): seq<InputProof>
  {
    seq(|tx.ins|, i requires 0 <= i < |tx.ins| => InputAt(tx, i))
  }

  /** The positions claimed by inputs i, i+1, ..., or None if one of them is malformed. */
  function PositionsFrom(inputs: seq<InputProof>, i: nat): Option<seq<nat>>
    decreases |inputs| - i
  {
    if i >= |inputs| then Some([])
    else
      match (inputs[i], PositionsFrom(inputs, i + 1))
      case (Malformed, _) => None
      case (_, None) => None
      case (NoProof, Some(ps)) => Some(ps)
      case (Claims(p), Some(ps)) => Some([p] + ps)
  }

  /** The positions a block claims: those of its first transaction if that is a coinbase. */
  function Positions(block: ClaimBlock): Option<seq<nat>>
  {
    if |block.txns| == 0 || !IsCoinBase(block.txns[0]) then Some([]) else PositionsFrom(Inputs(block.txns[0]), 1)
  }

  ghost predicate Distinct(ps: seq<nat>)
  {
    forall i, j :: 0 <= i < j < |ps| ==> ps[i] != ps[j]
  }

  ghost function Elements(ps: seq<nat>): set<nat>
  {
    set p | p in ps
  }

  /** A block can be connected on top of what is spent: it is well-formed and claims nothing twice. */
  ghost predicate Spendable(block: ClaimBlock, spent: set<nat>)
  {
    var ps := Positions(block);
    ps.Some? && Distinct(ps.value) && Elements(ps.value) !! spent
  }

  // ---------- the pass over a coinbase ----------

  /** Spending inputs i, i+1, ... one after the other, or None when one is malformed or already spent. */
  ghost function SpendFrom(inputs: seq<InputProof>, i: nat, spent: set<nat>): Option<set<nat>>
    decreases |inputs| - i
  {
    if i >= |inputs| then Some(spent)
    else
      match inputs[i]
      case Malformed => None
      case NoProof => SpendFrom(inputs, i + 1, spent)
      case Claims(p) => if p in spent then None else SpendFrom(inputs, i + 1, spent + {p})
  }

  /** Doing it one after the other is claiming them all at once. */
  lemma {:induction false} SpendFromIs(inputs: seq<InputProof>, i: nat, spent: set<nat>)
    ensures var ps := PositionsFrom(inputs, i); var r := SpendFrom(inputs, i, spent);
      && (r.Some? <==> ps.Some? && Distinct(ps.value) && Elements(ps.value) !! spent)
      && (r.Some? ==> r.value == spent + Elements(ps.value))
    decreases |inputs| - i
  {
    if i < |inputs| {
      match inputs[i]
      case Malformed =>
      case NoProof => SpendFromIs(inputs, i + 1, spent);
      case Claims(p) =>
        SpendFromIs(inputs, i + 1, spent + {p});
        if PositionsFrom(inputs, i + 1).Some? {
          ConsFacts(p, PositionsFrom(inputs, i + 1).value, spent);
        }
    }
  }

  lemma ConsFacts(p: nat, ps: seq<nat>, spent: set<nat>)
    ensures Elements([p] + ps) == {p} + Elements(ps)
    ensures Distinct([p] + ps) <==> Distinct(ps) && p !in Elements(ps)
    ensures Distinct([p] + ps) && Elements([p] + ps) !! spent
            <==> p !in spent && Distinct(ps) && Elements(ps) !! (spent + {p})
  {
    var all := [p] + ps;
    assert forall k :: 0 <= k < |ps| ==> all[k + 1] == ps[k];
    if p in Elements(ps) {
      var k :| 0 <= k < |ps| && ps[k] == p;
      assert all[0] == all[k + 1];
      assert !Distinct(all);
    }
    if Distinct(all) {
      forall i, j | 0 <= i < j < |ps|
        ensures ps[i] != ps[j]
      {
        assert all[i + 1] != all[j + 1];
      }
    }
    assert Elements(all) == {p} + Elements(ps);
  }

  ghost function UnspendFrom(inputs: seq<InputProof>, i: nat, spent: set<nat>): Option<set<nat>>
    decreases |inputs| - i
  {
    if i >= |inputs| then Some(spent)
    else
      match inputs[i]
      case Malformed => None
      case NoProof => UnspendFrom(inputs, i + 1, spent)
      case Claims(p) => UnspendFrom(inputs, i + 1, spent - {p})
  }

  lemma {:induction false} UnspendFromIs(inputs: seq<InputProof>, i: nat, spent: set<nat>)
    ensures var ps := PositionsFrom(inputs, i); var r := UnspendFrom(inputs, i, spent);
      (r.Some? <==> ps.Some?) && (r.Some? ==> r.value == spent - Elements(ps.value))
    decreases |inputs| - i
  {
    if i < |inputs| {
      match inputs[i]
      case Malformed =>
      case NoProof => UnspendFromIs(inputs, i + 1, spent);
      case Claims(p) =>
        UnspendFromIs(inputs, i + 1, spent - {p});
        if PositionsFrom(inputs, i + 1).Some? {
          ConsFacts(p, PositionsFrom(inputs, i + 1).value, spent);
        }
    }
  }

  // ---------- which claims are acceptable ----------

  /** Input i of a transaction proves p: its output has covenant type 0, and its one witness item is the sane proof. */
  ghost predicate Carries(tx: ClaimTx, i: nat, p: Proof)
  {
    && i < |tx.ins| && i < |tx.outs| && tx.outs[i].covenant == 0
    && |tx.ins[i].stack| == 1 && tx.ins[i].stack[0] == WriteProof(p)
    && InBounds(p) && IsSane(p) && p.size == |WriteProof(p)| <= MAX_AIRDROP_PROOF
  }

  /** The same, kept out of sight until the proof is looked at. */
  ghost predicate Proves(tx: ClaimTx, i: nat, p: Proof)
  {
    forall x {:trigger Unseal(x)} :: x == p ==> Carries(tx, i, x)
  }

  lemma ProvesIs(tx: ClaimTx, i: nat, p: Proof)
    ensures Proves(tx, i, p) <==> Carries(tx, i, p)
  {
    assert Unseal(p) == p;
  }

  ghost predicate ProvesAt(tx: ClaimTx, i: nat, q: nat)
  {
    exists p :: Proves(tx, i, p) && Position(p) == Some(q)
  }

  /** A coinbase transaction is the first of its block and has a first input that spends nothing. */
  ghost predicate HasCoinbase(block: ClaimBlock)
  {
    |block.txns| > 0 && |block.txns[0].ins| > 0 && block.txns[0].ins[0].nullOutpoint
  }

  /** A block claims a position: one of the inputs of its coinbase after the first proves it. */
  ghost predicate ClaimsPosition(block: ClaimBlock, q: nat)
  {
    HasCoinbase(block) && exists i: nat :: 1 <= i && ProvesAt(block.txns[0], i, q)
  }

  /** Every input after the first has an output, and a proof unless that output has a covenant. */
  ghost predicate WellFormed(tx: ClaimTx)
  {
    forall i: nat {:trigger Answered(tx, i)} :: 1 <= i < |tx.ins| ==> Answered(tx, i)
  }

  ghost predicate Answered(tx: ClaimTx, i: nat)
  {
    i < |tx.outs| && (tx.outs[i].covenant != 0 || exists p :: Proves(tx, i, p))
  }

  /** No two inputs of a transaction after the first prove the same position. */
  ghost predicate NoneTwice(tx: ClaimTx)
  {
    forall i: nat, j: nat, q: nat :: 1 <= i < j && ProvesAt(tx, i, q) ==> !ProvesAt(tx, j, q)
  }

  /** What it takes to connect a block where the positions in spent are taken. */
  ghost predicate Acceptable(block: ClaimBlock, spent: set<nat>)
  {
    HasCoinbase(block) ==>
      && WellFormed(block.txns[0]) && NoneTwice(block.txns[0])
      && forall q: nat :: ClaimsPosition(block, q) ==> q !in spent
  }

  /** What is read from an input: the position it proves, nothing beside a covenant, and otherwise an error. */
  lemma InputExactly(tx: ClaimTx, i: nat)
    requires i < |tx.ins|
    ensures forall q: nat :: InputAt(tx, i) == Claims(q) <==> ProvesAt(tx, i, q)
    ensures InputAt(tx, i) == NoProof <==> i < |tx.outs| && tx.outs[i].covenant != 0
    ensures InputAt(tx, i) == Malformed <==> !Answered(tx, i)
  {
    forall p
      ensures Proves(tx, i, p) <==> Carries(tx, i, p)
    {
      ProvesIs(tx, i, p);
    }
    if i < |tx.outs| && tx.outs[i].covenant == 0 && |tx.ins[i].stack| == 1 {
      ProofExactly(tx, i);
    }
  }

  lemma ProofExactly(tx: ClaimTx, i: nat)
    requires i < |tx.ins| && i < |tx.outs| && tx.outs[i].covenant == 0 && |tx.ins[i].stack| == 1
    ensures forall p :: Carries(tx, i, p) <==> ParseProof(tx.ins[i].stack[0]) == Some(p) && IsSane(p)
  {
    var s := tx.ins[i].stack[0];
    forall p
      ensures Carries(tx, i, p) <==> ParseProof(s) == Some(p) && IsSane(p)
    {
      if Carries(tx, i, p) {
        ParseOfWrite(p);
      }
      if ParseProof(s) == Some(p) {
        WriteOfParse(s);
      }
    }
  }

  /** The positions of inputs from i on: none is malformed, and they are what the inputs claim, in their order. */
  lemma {:induction false} PositionsLaw(inputs: seq<InputProof>, i: nat)
    requires i <= |inputs|
    ensures PositionsFrom(inputs, i).Some? <==> forall k :: i <= k < |inputs| ==> inputs[k] != Malformed
    ensures PositionsFrom(inputs, i).Some? ==> var ps := PositionsFrom(inputs, i).value;
      && (forall q: nat :: q in Elements(ps) <==> Claims(q) in inputs[i..])
      && (Distinct(ps) <==> Once(inputs, i))
    decreases |inputs| - i
  {
    if i < |inputs| {
      PositionsLaw(inputs, i + 1);
      assert inputs[i..] == [inputs[i]] + inputs[i + 1..];
      if PositionsFrom(inputs, i).Some? {
        var rest := PositionsFrom(inputs, i + 1).value;
        if inputs[i].Claims? {
          ConsFacts(inputs[i].position, rest, {});
          OnceCons(inputs, i);
        }
      }
    }
  }

  ghost predicate Once(inputs: seq<InputProof>, i: nat)
  {
    forall j, k :: i <= j < k < |inputs| && inputs[j].Claims? ==> inputs[j] != inputs[k]
  }

  lemma OnceCons(inputs: seq<InputProof>, i: nat)
    requires i < |inputs| && inputs[i].Claims?
    ensures Once(inputs, i) <==> Once(inputs, i + 1) && inputs[i] !in inputs[i + 1..]
  {
    if inputs[i] in inputs[i + 1..] {
      var k :| 0 <= k < |inputs| - i - 1 && inputs[i + 1..][k] == inputs[i];
      assert inputs[i + 1 + k] == inputs[i];
    }
  }

  lemma ProvesInside(tx: ClaimTx, i: nat, q: nat)
    requires ProvesAt(tx, i, q)
    ensures i < |tx.ins|
  {
    var p :| Proves(tx, i, p) && Position(p) == Some(q);
    ProvesIs(tx, i, p);
  }

  /** The inputs of a transaction were read for what they prove. */
  ghost predicate ReadAs(tx: ClaimTx, inputs: seq<InputProof>)
  {
    && |inputs| == |tx.ins|
    && (forall i: nat, q: nat {:trigger ProvesAt(tx, i, q)} :: i < |inputs| ==>
          (inputs[i] == Claims(q) <==> ProvesAt(tx, i, q)))
    && (forall i: nat {:trigger Answered(tx, i)} :: i < |inputs| ==> (inputs[i] == Malformed <==> !Answered(tx, i)))
  }

  lemma InputsRead(tx: ClaimTx)
    ensures ReadAs(tx, Inputs(tx))
  {
    forall i: nat | i < |tx.ins|
      ensures forall q: nat :: Inputs(tx)[i] == Claims(q) <==> ProvesAt(tx, i, q)
      ensures Inputs(tx)[i] == Malformed <==> !Answered(tx, i)
    {
      InputExactly(tx, i);
    }
  }

  lemma WellFormedExactly(tx: ClaimTx, inputs: seq<InputProof>)
    requires ReadAs(tx, inputs)
    ensures WellFormed(tx) <==> forall k :: 1 <= k < |inputs| ==> inputs[k] != Malformed
  {
    forall k: nat | 1 <= k < |inputs|
      ensures inputs[k] != Malformed <==> Answered(tx, k)
    {
    }
  }

  lemma ClaimsExactly(tx: ClaimTx, inputs: seq<InputProof>, q: nat)
    requires ReadAs(tx, inputs) && |inputs| > 0
    ensures Claims(q) in inputs[1..] <==> exists i: nat :: 1 <= i && ProvesAt(tx, i, q)
  {
    if Claims(q) in inputs[1..] {
      var k: nat :| k < |inputs| - 1 && inputs[1..][k] == Claims(q);
      assert ProvesAt(tx, k + 1, q);
    }
    if i: nat :| 1 <= i && ProvesAt(tx, i, q) {
      ProvesInside(tx, i, q);
      assert inputs[1..][i - 1] == Claims(q);
    }
  }

  lemma OnceExactly(tx: ClaimTx, inputs: seq<InputProof>)
    requires ReadAs(tx, inputs)
    ensures Once(inputs, 1) <==> NoneTwice(tx)
  {
    if Once(inputs, 1) {
      forall i: nat, j: nat, q: nat | 1 <= i < j && ProvesAt(tx, i, q)
        ensures !ProvesAt(tx, j, q)
      {
        if ProvesAt(tx, j, q) {
          ProvesInside(tx, j, q);
        }
      }
    }
    if NoneTwice(tx) {
      forall j: nat, k: nat | 1 <= j < k < |inputs| && inputs[j].Claims?
        ensures inputs[j] != inputs[k]
      {
        var q := inputs[j].position;
        assert ProvesAt(tx, j, q) && !ProvesAt(tx, k, q);
      }
    }
  }

  /** A block can be connected exactly if it is acceptable, and it then spends exactly what it claims. */
  lemma AcceptableExactly(block: ClaimBlock, spent: set<nat>)
    ensures Spendable(block, spent) <==> Acceptable(block, spent)
    ensures Positions(block).Some? ==>
      forall q: nat :: q in Elements(Positions(block).value) <==> ClaimsPosition(block, q)
  {
    if HasCoinbase(block) {
      var tx := block.txns[0];
      InputsRead(tx);
      PositionsLaw(Inputs(tx), 1);
      WellFormedExactly(tx, Inputs(tx));
      OnceExactly(tx, Inputs(tx));
      forall q: nat
        ensures ClaimsPosition(block, q) <==> Claims(q) in Inputs(tx)[1..]
      {
        ClaimsExactly(tx, Inputs(tx), q);
      }
    }
  }

  /** What the inputs of a transaction say, kept out of sight until an input is looked at. */
  ghost predicate InputsOf(tx: ClaimTx, inputs: seq<InputProof>)
  {
    && |inputs| == |tx.ins|
    && forall i {:trigger InputAt(tx, i)} :: 0 <= i < |inputs| ==> inputs[i] == InputAt(tx, i)
  }

  /** Looks at one input of a coinbase: parse its proof and check it. */
  method ReadInput(tx: ClaimTx, i: nat, ghost inputs: seq<InputProof>) returns (r: InputProof)
    requires InputsOf(tx, inputs) && i < |tx.ins|
    ensures r == inputs[i] && (r.Claims? ==> r.position < AIRDROP_TREE_LEAVES)
    ensures forall q: nat :: r == Claims(q) <==> ProvesAt(tx, i, q)
    ensures r == NoProof <==> i < |tx.outs| && tx.outs[i].covenant != 0
    ensures r == Malformed <==> !Answered(tx, i)
  {
    InputExactly(tx, i);
    assert inputs[i] == InputAt(tx, i);
    if i >= |tx.outs| {
      return Malformed;
    }
    if tx.outs[i].covenant != COVENANT_NONE {
      return NoProof;
    }
    if |tx.ins[i].stack| != 1 {
      return Malformed;
    }
    var proof := ParseAirdropProof(tx.ins[i].stack[0]);
    if proof.None? || !IsSane(proof.value) {
      return Malformed;
    }
    var position := Position(proof.value);
    r := if position.None? then Malformed else Claims(position.value);
  }

  // ---------- the field ----------

  class SpentField {
    const bits: array<bv8>

    constructor (serialized: seq<bv8>)
      requires |serialized| == FIELD_SIZE
      ensures fresh(bits) && bits[..] == serialized
    {
      bits := new bv8[FIELD_SIZE](i requires 0 <= i < FIELD_SIZE => serialized[i]);
      new;
      assert bits[..] == serialized;
    }

    /** Positions outside the tree count as spent. */
    method IsSpent(position: nat, ghost spent: set<nat>) returns (r: bool)
      requires Represents(bits[..], spent)
      ensures r <==> position >= AIRDROP_TREE_LEAVES || position in spent
    {
      if position >= AIRDROP_TREE_LEAVES {
        return true;
      }
      r := BitIn(bits[position / 8], position % 8);
      assert r == BitAt(bits[..], position / 8, position % 8);
      assert 8 * (position / 8) + position % 8 == position;
    }

    method SetSpent(position: nat, value: bool, ghost spent: set<nat>)
      requires Represents(bits[..], spent)
      modifies bits
      ensures Represents(bits[..], if position >= AIRDROP_TREE_LEAVES then spent
                                   else if value then spent + {position} else spent - {position})
    {
      if position >= AIRDROP_TREE_LEAVES {
        return;
      }
      var q, r := position / 8, position % 8;
      assert 8 * q + r == position;
      if value {
        SetBit(q, r, spent);
      } else {
        ClearBit(q, r, spent);
      }
    }

    method SetBit(q: nat, r: nat, ghost spent: set<nat>)
      requires Represents(bits[..], spent) && q < FIELD_SIZE && r < 8 && 8 * q + r < AIRDROP_TREE_LEAVES
      modifies bits
      ensures Represents(bits[..], spent + {8 * q + r})
    {
      ghost var before := bits[..];
      bits[q] := bits[q] | Mask(r);
      SetPosition(before, spent, q, r);
      assert bits[..] == before[q := before[q] | Mask(r)];
    }

    method ClearBit(q: nat, r: nat, ghost spent: set<nat>)
      requires Represents(bits[..], spent) && q < FIELD_SIZE && r < 8
      modifies bits
      ensures Represents(bits[..], spent - {8 * q + r})
    {
      ghost var before := bits[..];
      bits[q] := bits[q] & !Mask(r);
      ClearPosition(before, spent, q, r);
      assert bits[..] == before[q := before[q] & !Mask(r)];
    }

    /** Spends what a block claims; on failure the field in memory may hold part of it. */
    method SpendBlock(block: ClaimBlock, ghost spent: set<nat>) returns (ok: bool)
      requires Represents(bits[..], spent)
      modifies bits
      ensures ok <==> Spendable(block, spent)
      ensures ok <==> Acceptable(block, spent)
      ensures ok ==> Represents(bits[..], spent + Elements(Positions(block).value))
      ensures ok ==> forall q: nat :: q in Elements(Positions(block).value) <==> ClaimsPosition(block, q)
    {
      AcceptableExactly(block, spent);
      if |block.txns| == 0 || !IsCoinBase(block.txns[0]) {
        assert Elements([]) == {};
        return true;
      }
      var tx := block.txns[0];
      ok := SpendInputs(tx, Inputs(tx), spent);
      SpendFromIs(Inputs(tx), 1, spent);
    }

    method SpendInputs(tx: ClaimTx, ghost inputs: seq<InputProof>, ghost spent: set<nat>) returns (ok: bool)
      requires Represents(bits[..], spent) && InputsOf(tx, inputs) && |inputs| > 0
      modifies bits
      ensures ok <==> SpendFrom(inputs, 1, spent).Some?
      ensures ok ==> Represents(bits[..], SpendFrom(inputs, 1, spent).value)
    {
      ghost var now := spent;
      var i := 1;
      while i < |tx.ins|
        invariant 1 <= i <= |tx.ins|
        invariant Represents(bits[..], now) && SpendFrom(inputs, i, now) == SpendFrom(inputs, 1, spent)
      {
        var input := ReadInput(tx, i, inputs);
        match input {
          case Malformed =>
            return false;
          case NoProof =>
          case Claims(position) =>
            var already := IsSpent(position, now);
            if already {
              return false;
            }
            SetSpent(position, true, now);
            now := now + {position};
        }
        i := i + 1;
      }
      ok := true;
    }

    method UnspendBlock(block: ClaimBlock, ghost spent: set<nat>) returns (ok: bool)
      requires Represents(bits[..], spent)
      modifies bits
      ensures ok <==> Positions(block).Some?
      ensures ok ==> Represents(bits[..], spent - Elements(Positions(block).value))
      ensures ok ==> forall q: nat :: q in Elements(Positions(block).value) <==> ClaimsPosition(block, q)
    {
      AcceptableExactly(block, spent);
      if |block.txns| == 0 || !IsCoinBase(block.txns[0]) {
        assert Elements([]) == {};
        return true;
      }
      var tx := block.txns[0];
      ok := UnspendInputs(tx, Inputs(tx), spent);
      UnspendFromIs(Inputs(tx), 1, spent);
    }

    method UnspendInputs(tx: ClaimTx, ghost inputs: seq<InputProof>, ghost spent: set<nat>) returns (ok: bool)
      requires Represents(bits[..], spent) && InputsOf(tx, inputs) && |inputs| > 0
      modifies bits
      ensures ok <==> UnspendFrom(inputs, 1, spent).Some?
      ensures ok ==> Represents(bits[..], UnspendFrom(inputs, 1, spent).value)
    {
      ghost var now := spent;
      var i := 1;
      while i < |tx.ins|
        invariant 1 <= i <= |tx.ins|
        invariant Represents(bits[..], now) && UnspendFrom(inputs, i, now) == UnspendFrom(inputs, 1, spent)
      {
        var input := ReadInput(tx, i, inputs);
        match input {
          case Malformed =>
            return false;
          case NoProof =>
          case Claims(position) =>
            SetSpent(position, false, now);
            now := now - {position};
        }
        i := i + 1;
      }
      ok := true;
    }
  }

  // ---------- the stored field and the active chain ----------

  /** The stored bytes; before the first write nothing is stored, which reads as all zeros. */
  function View(stored: Option<seq<bv8>>): seq<bv8>
  {
    match stored
    case None => seq(FIELD_SIZE, _ => 0)
    case Some(bits) => bits
  }

  /** The positions claimed by a chain of blocks. */
  ghost function Claimed(blocks: seq<ClaimBlock>): set<nat>
  {
    if |blocks| == 0 then {}
    else
      var last := Positions(blocks[|blocks| - 1]);
      Claimed(blocks[..|blocks| - 1]) + if last.Some? then Elements(last.value) else {}
  }

  /** Every block of the chain could be connected on top of the ones before it, so no position occurs twice. */
  ghost predicate ClaimedOnce(blocks: seq<ClaimBlock>)
  {
    |blocks| == 0 ||
    (ClaimedOnce(blocks[..|blocks| - 1]) && Spendable(blocks[|blocks| - 1], Claimed(blocks[..|blocks| - 1])))
  }

  class AirdropState {
    var stored: Option<seq<bv8>>
    /** The blocks of the active chain, oldest first. */
    ghost var connected: seq<ClaimBlock>

    ghost predicate Valid()
      reads this
    {
      ClaimedOnce(connected) && Represents(View(stored), Claimed(connected))
    }

    constructor ()
      ensures Valid() && connected == [] && stored == None
    {
      stored := None;
      connected := [];
      new;
      ZeroField();
    }

    /** A copy of the stored field, or null when its length is wrong. */
    method Fetch() returns (field: SpentField?)
      ensures field == null <==> |View(stored)| != FIELD_SIZE
      ensures field != null ==> fresh(field) && fresh(field.bits) && field.bits[..] == View(stored)
    {
      var serialized := View(stored);
      if |serialized| != FIELD_SIZE {
        return null;
      }
      field := new SpentField(serialized);
    }

    /** Whether a block could be connected; nothing is written. */
    method CheckAvailable(block: ClaimBlock) returns (ok: bool)
      requires Valid()
      ensures ok <==> Acceptable(block, Claimed(connected))
    {
      var field := Fetch();
      ok := field.SpendBlock(block, Claimed(connected));
    }

    /** Connects a block: all it claims becomes spent, or the stored field stays as it was. */
    method Connect(block: ClaimBlock) returns (ok: bool)
      requires Valid()
      modifies this
      ensures Valid()
      ensures ok <==> Acceptable(block, Claimed(old(connected)))
      ensures connected == old(connected) + if ok then [block] else []
      ensures !ok ==> stored == old(stored)
    {
      var field := Fetch();
      ok := field.SpendBlock(block, Claimed(connected));
      if ok {
        Connected(connected, block, field.bits[..]);
        stored := Some(field.bits[..]);
        connected := connected + [block];
      }
    }

    /** Disconnects the most recent block: its positions become unspent again and nothing else does. */
    method Disconnect(block: ClaimBlock) returns (ok: bool)
      requires Valid() && |connected| > 0 && block == connected[|connected| - 1]
      modifies this
      ensures Valid() && ok && connected == old(connected)[..|old(connected)| - 1]
    {
      ghost var below := connected[..|connected| - 1];
      assert connected == below + [block];
      ClaimedSnoc(below, block);
      ghost var ps := Elements(Positions(block).value);
      var field := Fetch();
      ok := field.UnspendBlock(block, Claimed(connected));
      assert Claimed(below) + ps - ps == Claimed(below);
      stored := Some(field.bits[..]);
      connected := below;
    }
  }

  lemma ClaimedSnoc(blocks: seq<ClaimBlock>, block: ClaimBlock)
    ensures Claimed(blocks + [block])
         == Claimed(blocks) + if Positions(block).Some? then Elements(Positions(block).value) else {}
    ensures ClaimedOnce(blocks + [block]) <==> ClaimedOnce(blocks) && Spendable(block, Claimed(blocks))
  {
    assert (blocks + [block])[..|blocks|] == blocks;
  }

  lemma Connected(blocks: seq<ClaimBlock>, block: ClaimBlock, bits: seq<bv8>)
    requires ClaimedOnce(blocks) && Spendable(block, Claimed(blocks))
    requires Represents(bits, Claimed(blocks) + Elements(Positions(block).value))
    ensures ClaimedOnce(blocks + [block]) && Represents(bits, Claimed(blocks + [block]))
  {
    ClaimedSnoc(blocks, block);
  }

  /** Two states with the same active chain show the same bytes, however they were reached. */
  lemma SameChainSameBytes(a: AirdropState, b: AirdropState)
    requires a.Valid() && b.Valid() && a.connected == b.connected
    ensures View(a.stored) == View(b.stored)
  {
    RepresentationUnique(View(a.stored), View(b.stored), Claimed(a.connected));
  }

  /** No position occurs twice in a chain in which every block could be connected. */
  lemma {:induction false} NoPositionTwice(blocks: seq<ClaimBlock>, i: nat, j: nat)
    requires ClaimedOnce(blocks) && i < j < |blocks|
    ensures Positions(blocks[i]).Some? && Positions(blocks[j]).Some?
    ensures Distinct(Positions(blocks[i]).value)
            && Elements(Positions(blocks[i]).value) !! Elements(Positions(blocks[j]).value)
  {
    var below := blocks[..|blocks| - 1];
    if j < |below| {
      NoPositionTwice(below, i, j);
    } else {
      ClaimedIncludes(below, i);
    }
  }

  lemma {:induction false} ClaimedIncludes(blocks: seq<ClaimBlock>, i: nat)
    requires ClaimedOnce(blocks) && i < |blocks|
    ensures Positions(blocks[i]).Some? && Distinct(Positions(blocks[i]).value)
    ensures Elements(Positions(blocks[i]).value) <= Claimed(blocks)
  {
    if i < |blocks| - 1 {
      ClaimedIncludes(blocks[..|blocks| - 1], i);
    }
  }

  ghost predicate ClaimedIn(blocks: seq<ClaimBlock>, q: nat)
  {
    exists b :: 0 <= b < |blocks| && ClaimsPosition(blocks[b], q)
  }

  lemma ClaimedInSnoc(blocks: seq<ClaimBlock>, block: ClaimBlock, q: nat)
    ensures ClaimedIn(blocks + [block], q) <==> ClaimedIn(blocks, q) || ClaimsPosition(block, q)
  {
    var all := blocks + [block];
    assert all[|blocks|] == block;
    if b :| 0 <= b < |blocks| && ClaimsPosition(blocks[b], q) {
      assert all[b] == blocks[b];
    }
  }

  lemma SpendsWhatItClaims(block: ClaimBlock, spent: set<nat>, q: nat)
    requires Spendable(block, spent)
    ensures q in Elements(Positions(block).value) <==> ClaimsPosition(block, q)
  {
    AcceptableExactly(block, spent);
  }

  /** A position is claimed by a chain exactly if an input of one of its coinbases proves it. */
  lemma {:induction false} ClaimedExactly(blocks: seq<ClaimBlock>, q: nat)
    requires ClaimedOnce(blocks)
    ensures q in Claimed(blocks) <==> ClaimedIn(blocks, q)
  {
    if |blocks| > 0 {
      var below, last := blocks[..|blocks| - 1], blocks[|blocks| - 1];
      ClaimedExactly(below, q);
      SpendsWhatItClaims(last, Claimed(below), q);
      assert blocks == below + [last];
      ClaimedInSnoc(below, last, q);
    }
  }

  // ---------- whole runs ----------

  datatype Op = ConnectOp(block: ClaimBlock) | DisconnectOp

  /** The chain after a step: a block that cannot be connected is left out, a disconnect takes the last one away. */
  ghost function After(chain: seq<ClaimBlock>, op: Op): seq<ClaimBlock>
  {
    match op
    case ConnectOp(block) => if Acceptable(block, Claimed(chain)) then chain + [block] else chain
    case DisconnectOp => if |chain| == 0 then chain else chain[..|chain| - 1]
  }

  ghost function Chain(ops: seq<Op>): seq<ClaimBlock>
  {
    if |ops| == 0 then [] else After(Chain(ops[..|ops| - 1]), ops[|ops| - 1])
  }

  method Apply(state: AirdropState, op: Op, blocks: seq<ClaimBlock>) returns (after: seq<ClaimBlock>)
    requires state.Valid() && state.connected == blocks
    modifies state
    ensures state.Valid() && state.connected == after == After(blocks, op)
  {
    after := blocks;
    match op
    case ConnectOp(block) =>
      var ok := state.Connect(block);
      if ok {
        after := blocks + [block];
      }
    case DisconnectOp =>
      if |blocks| > 0 {
        var _ := state.Disconnect(blocks[|blocks| - 1]);
        after := blocks[..|blocks| - 1];
      }
  }

  /** After any run the stored bits are exactly the positions claimed by the blocks that are then connected. */
  method Run(ops: seq<Op>) returns (state: AirdropState)
    ensures state.Valid() && state.connected == Chain(ops)
    ensures Represents(View(state.stored), Claimed(Chain(ops))) && ClaimedOnce(Chain(ops))
    ensures forall q: nat :: q in Claimed(Chain(ops)) <==> ClaimedIn(Chain(ops), q)
  {
    state := new AirdropState();
    var blocks: seq<ClaimBlock> := [];
    for i := 0 to |ops|
      invariant fresh(state) && state.Valid() && state.connected == blocks == Chain(ops[..i])
    {
      assert ops[..i + 1][..i] == ops[..i];
      blocks := Apply(state, ops[i], blocks);
    }
    assert ops[..|ops|] == ops;
    forall q: nat
      ensures q in Claimed(Chain(ops)) <==> ClaimedIn(Chain(ops), q)
    {
      ClaimedExactly(Chain(ops), q);
    }
  }
}
