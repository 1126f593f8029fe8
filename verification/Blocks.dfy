/**
 Blocks, transactions and the producer schedule.

 SHA-3 is modelled as a perfect hash. A head hash is the term `Sha3(head)`, which makes hashing
 injective and rules out cycles of parent hashes. A Merkle root stands for the list it commits to,
 and a transaction doubles as its own hash. All times are Unix times in nanoseconds.
 */
module Blocks {
  import opened GoInt
  import opened Arithmetic

  const SECOND: int := 1_000_000_000
  const SLOT_INTERVAL: int := 3 * SECOND
  const VOTE_INTERVAL: int := 1200
  const BLOCKS_PER_WITNESS: int := 6
  const MAX_EXPIRATION: int := 90 * SECOND
  const MIN_GAS_RATIO: int := 100
  const MAX_GAS_RATIO: int := 10000
  const MIN_GAS_LIMIT: int := 600000
  const MAX_GAS_LIMIT: int := 400000000

  /** `rest` stands for the signed fields that no rule modelled here inspects. */
  datatype Tx = Tx(time: int64, expiration: int64, gasRatio: int64, gasLimit: int64, delay: int64,
                   isDefer: bool, rest: seq<int>)
  {
    predicate IsExpired(ct: int64) {
      expiration <= ct || Wrap64(ct - time) > MAX_EXPIRATION
    }

    predicate IsCreatedBefore(ct: int64) {
      time <= ct
    }

    /** The time check of VerifySelf. It keeps the subtraction in IsExpired from overflowing. */
    predicate WellTimed() {
      time > 0 && expiration > time
    }

    /** What the two time checks are for: the transaction has arrived, has not expired and is at most 90 seconds old. */
    ghost predicate InTime(ct: int) {
      time <= ct < expiration && ct - time <= 90_000_000_000
    }

    predicate CheckGas() {
      MIN_GAS_RATIO <= gasRatio <= MAX_GAS_RATIO && MIN_GAS_LIMIT <= gasLimit <= MAX_GAS_LIMIT
    }
  }

  lemma TimesExact(t: Tx, ct: int64)
    requires t.WellTimed()
    ensures t.IsCreatedBefore(ct) && !t.IsExpired(ct) <==> t.InTime(ct)
  {
  }

  datatype Hash = Raw(bytes: string) | Sha3(head: BlockHead)

  /** What a contract leaves behind in the receipt of a transaction. */
  datatype Receipt = Receipt(funcName: string, content: string)

  datatype BlockHead = BlockHead(parentHash: Hash, number: int, producer: string, time: int64,
                                 txMerkleHash: seq<Tx>, txReceiptMerkleHash: seq<seq<Receipt>>)

  datatype Block = Block(head: BlockHead, txs: seq<Tx>)
  {
    function HeadHash(): Hash {
      Sha3(head)
    }
  }

  /** The number of head hashes nested in h. It grows strictly from a block to its child. */
  function Depth(h: Hash): nat {
    match h
    case Raw(_) => 0
    case Sha3(head) => 1 + Depth(head.parentHash)
  }

  function Slot(time: int): int {
    TruncDiv(time, SLOT_INTERVAL)
  }

  /** The producer scheduled at `time`; the source indexes the list by slot. */
  function WitnessOf(time: int, witnesses: seq<string>): string
    requires time >= 0 && witnesses != []
  {
    witnesses[Slot(time) % |witnesses|]
  }

  /** A slot lasts three seconds, and in |witnesses| slots in a row each place of the list has exactly one turn. */
  lemma TurnsExact(time: nat, witnesses: seq<string>, place: nat) returns (turn: nat)
    requires place < |witnesses|
    ensures turn < |witnesses| && WitnessOf(time + turn * 3_000_000_000, witnesses) == witnesses[place]
    ensures forall k :: 0 <= k < |witnesses| ==>
              var at := (time / 3_000_000_000 + k) % |witnesses|;
              WitnessOf(time + k * 3_000_000_000, witnesses) == witnesses[at] && (at == place <==> k == turn)
  {
    var n, first := |witnesses|, time / 3_000_000_000 % |witnesses|;
    turn := if first <= place then place - first else place - first + n;
    forall k | 0 <= k < n
      ensures var at := (time / 3_000_000_000 + k) % n;
              WitnessOf(time + k * 3_000_000_000, witnesses) == witnesses[at] && (at == place <==> k == turn)
    {
      assert Slot(time + k * 3_000_000_000) == time / 3_000_000_000 + k;
      Shifted(time / 3_000_000_000, k, n);
    }
  }

  lemma Shifted(slot: nat, k: nat, n: nat)
    requires k < n
    ensures (slot + k) % n == if slot % n + k < n then slot % n + k else slot % n + k - n
  {
    var q, r := slot / n, slot % n;
    assert slot == q * n + r;
    if r + k < n {
      ModOfSum(q, r + k, n);
    } else {
      assert slot + k == (q + 1) * n + (r + k - n);
      ModOfSum(q + 1, r + k - n, n);
    }
  }
}
