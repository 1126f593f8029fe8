/**
 The light client: every list of producers it records is vouched for by the list before it, what that is worth,
 and what is missing.
 */
module Spv {
  import opened GoInt
  import opened Options
  import opened Blocks

  const VERIFIER_NUM: int := 17
  const QUORUM: int := 12
  const STAT: string := "vote_producer.iost/stat"

  /** What reading the content of a receipt into a list comes to. Also a failure may leave something in the list. */
  datatype Reading = Reading(ok: bool, list: seq<string>)

  /** Whether a signature on a head is one by its producer, and how the content of a receipt is read into a list. */
  datatype Net = Net(verify: (BlockHead, seq<int>) -> bool, decode: (string, seq<string>) -> Reading)

  /** A block as the light client gets it: the head, a signature, and receipts that may or may not belong to it. */
  datatype SpvBlock = SpvBlock(head: BlockHead, sign: seq<int>, txNum: nat, receipts: seq<seq<Receipt>>)

  datatype SpvError =
    | InvalidStart
    | InvalidPendingList
    | InvalidSignature
    | UnknownEpoch
    | InvalidHash
    | InvalidNumber
    | NotEnough

  /** VerifySelf: the signature of the head, and one receipt for each transaction. */
  predicate VerifiesSelf(net: Net, b: SpvBlock) {
    net.verify(b.head, b.sign) && b.txNum == |b.receipts|
  }

  /** The producer has signed the head. */
  ghost predicate Signed(net: Net, h: BlockHead) {
    exists sign: seq<int> :: net.verify(h, sign)
  }

  // ---------------------------------------------------------------- the list in the receipts

  /** The receipts one after the other, until one can be read; the list is what was read so far. */
  function StatIn(net: Net, rs: seq<Receipt>, list: seq<string>): Reading {
    if rs == [] then Reading(false, list)
    else if rs[0].funcName != STAT then StatIn(net, rs[1..], list)
    else
      var r := net.decode(rs[0].content, list);
      if r.ok then r else StatIn(net, rs[1..], r.list)
  }

  function StatOf(net: Net, receipts: seq<seq<Receipt>>, list: seq<string>): seq<string> {
    if receipts == [] then list
    else
      var r := StatIn(net, receipts[0], list);
      if r.ok then r.list else StatOf(net, receipts[1..], r.list)
  }

  /** The pending list that a block brings. */
  function PendingList(net: Net, receipts: seq<seq<Receipt>>): seq<string> {
    StatOf(net, receipts, [])
  }

  /** GetWitnessStatusFromBlock */
  method WitnessStatus(net: Net, b: SpvBlock) returns (list: seq<string>)
    ensures list == PendingList(net, b.receipts)
  {
    list := [];
    assert b.receipts[0..] == b.receipts;
    for i := 0 to |b.receipts|
      invariant StatOf(net, b.receipts[i..], list) == StatOf(net, b.receipts, [])
    {
      var r := b.receipts[i];
      ghost var before := list;
      assert b.receipts[i..][1..] == b.receipts[i + 1..] && r[0..] == r;
      for k := 0 to |r|
        invariant StatIn(net, r[k..], list) == StatIn(net, r, before)
      {
        assert r[k..][1..] == r[k + 1..];
        if r[k].funcName == STAT {
          var reading := net.decode(r[k].content, list);
          list := reading.list;
          if reading.ok {
            return;
          }
        }
      }
    }
  }

  /** Reference: the contents of the receipts of the vote contract, in order. */
  function StatsIn(rs: seq<Receipt>): seq<string> {
    if rs == [] then [] else StatsIn(rs[..|rs| - 1]) + StatAt(rs[|rs| - 1])
  }

  function StatAt(r: Receipt): seq<string> {
    if r.funcName == "vote_producer.iost/stat" then [r.content] else []
  }

  /** All receipts of a block. */
  function Flat(receipts: seq<seq<Receipt>>): seq<Receipt> {
    if receipts == [] then [] else receipts[0] + Flat(receipts[1..])
  }

  /** What is in the list after k contents have been read into it. */
  function After(net: Net, contents: seq<string>, k: nat, list: seq<string>): seq<string>
    requires k <= |contents|
  {
    if k == 0 then list else net.decode(contents[k - 1], After(net, contents, k - 1, list)).list
  }

  ghost predicate Readable(net: Net, contents: seq<string>, k: nat, list: seq<string>)
    requires k < |contents|
  {
    net.decode(contents[k], After(net, contents, k, list)).ok
  }

  /** k is the first content that can be read, or all of them if none can. */
  ghost predicate Decides(net: Net, contents: seq<string>, k: nat, list: seq<string>) {
    && k <= |contents| && (forall i :: 0 <= i < k ==> !Readable(net, contents, i, list))
    && (k < |contents| ==> Readable(net, contents, k, list))
  }

  lemma {:induction false} StatsFirst(rs: seq<Receipt>)
    requires rs != []
    ensures StatsIn(rs) == StatAt(rs[0]) + StatsIn(rs[1..])
  {
    if |rs| == 1 {
      assert rs[..0] == [] && rs[1..] == [];
    } else {
      var last := |rs| - 1;
      StatsFirst(rs[..last]);
      assert rs[..last][1..] == rs[1..][..last - 1];
      assert StatAt(rs[0]) + StatsIn(rs[1..][..last - 1]) + StatAt(rs[last]) ==
             StatAt(rs[0]) + (StatsIn(rs[1..][..last - 1]) + StatAt(rs[last]));
    }
  }

  /** Reading goes on from what the first content left. */
  lemma {:induction false} AfterFirst(net: Net, contents: seq<string>, k: nat, list: seq<string>)
    requires 0 < k <= |contents|
    ensures After(net, contents, k, list) == After(net, contents[1..], k - 1, net.decode(contents[0], list).list)
  {
    if k > 1 {
      AfterFirst(net, contents, k - 1, list);
    }
  }

  lemma DecidesNext(net: Net, contents: seq<string>, k: nat, list: seq<string>)
    requires contents != [] && !net.decode(contents[0], list).ok
    requires Decides(net, contents[1..], k, net.decode(contents[0], list).list)
    ensures Decides(net, contents, k + 1, list)
  {
    forall i | 0 <= i < |contents[1..]|
      ensures Readable(net, contents, i + 1, list) <==>
              Readable(net, contents[1..], i, net.decode(contents[0], list).list)
    {
      AfterFirst(net, contents, i + 1, list);
    }
    forall i | 0 <= i < k + 1 ensures !Readable(net, contents, i, list) {
      if i > 0 {
        assert Readable(net, contents, i, list) <==>
               Readable(net, contents[1..], i - 1, net.decode(contents[0], list).list);
      }
    }
  }

  lemma {:induction false} StatInExact(net: Net, rs: seq<Receipt>, list: seq<string>) returns (k: nat)
    ensures var all := StatsIn(rs);
            && Decides(net, all, k, list)
            && StatIn(net, rs, list) ==
               if k < |all| then Reading(true, After(net, all, k + 1, list))
               else Reading(false, After(net, all, k, list))
  {
    if rs == [] {
      k := 0;
    } else {
      StatsFirst(rs);
      if rs[0].funcName != "vote_producer.iost/stat" {
        k := StatInExact(net, rs[1..], list);
        assert StatsIn(rs) == StatsIn(rs[1..]);
      } else {
        var all, r := StatsIn(rs), net.decode(rs[0].content, list);
        assert all[0] == rs[0].content && all[1..] == StatsIn(rs[1..]);
        if r.ok {
          k := 0;
          assert After(net, all, 0, list) == list;
        } else {
          k := StatInExact(net, rs[1..], r.list);
          DecidesNext(net, all, k, list);
          AfterFirst(net, all, k + 1, list);
          if k < |all| - 1 {
            AfterFirst(net, all, k + 2, list);
          }
          k := k + 1;
        }
      }
    }
  }

  lemma {:induction false} StatInAppend(net: Net, a: seq<Receipt>, b: seq<Receipt>, list: seq<string>)
    ensures var r := StatIn(net, a, list); StatIn(net, a + b, list) == if r.ok then r else StatIn(net, b, r.list)
  {
    if a == [] {
      assert a + b == b;
    } else {
      assert (a + b)[1..] == a[1..] + b;
      StatInAppend(net, a[1..], b, list);
      StatInAppend(net, a[1..], b, net.decode(a[0].content, list).list);
    }
  }

  lemma {:induction false} StatOfFlat(net: Net, receipts: seq<seq<Receipt>>, list: seq<string>)
    ensures StatOf(net, receipts, list) == StatIn(net, Flat(receipts), list).list
  {
    if receipts != [] {
      StatInAppend(net, receipts[0], Flat(receipts[1..]), list);
      StatOfFlat(net, receipts[1..], StatIn(net, receipts[0], list).list);
    }
  }

  /** The list is what the first content that can be read leaves, after what the unreadable ones before it left. */
  lemma PendingExact(net: Net, receipts: seq<seq<Receipt>>) returns (k: nat)
    ensures var all := StatsIn(Flat(receipts));
            && Decides(net, all, k, [])
            && PendingList(net, receipts) == After(net, all, if k < |all| then k + 1 else k, [])
  {
    StatOfFlat(net, receipts, []);
    k := StatInExact(net, Flat(receipts), []);
  }

  /** The first receipt that can be read decides, if nothing was tried before it. */
  lemma FirstStatDecides(net: Net, content: string, rest: seq<seq<Receipt>>)
    requires net.decode(content, []).ok
    ensures PendingList(net, [[Receipt(STAT, content)]] + rest) == net.decode(content, []).list
  {
    var receipts := [[Receipt(STAT, content)]] + rest;
    assert receipts[0] == [Receipt(STAT, content)];
  }

  // ---------------------------------------------------------------- vouching

  /** The blocks in ws verify, and each is the child of the one before it, the first of blk. */
  ghost predicate Follows(net: Net, blk: SpvBlock, ws: seq<SpvBlock>) {
    forall i :: 0 <= i < |ws| ==> IsNext(net, blk, ws, i)
  }

  ghost predicate IsNext(net: Net, blk: SpvBlock, ws: seq<SpvBlock>, i: nat)
    requires i < |ws|
  {
    && VerifiesSelf(net, ws[i])
    && ws[i].head.parentHash == Sha3((if i == 0 then blk else ws[i - 1]).head)
    && ws[i].head.number == blk.head.number + 1 + i
  }

  /** The listed producers that made one of the blocks. */
  function Makers(list: seq<string>, ws: seq<SpvBlock>): set<string> {
    set i | 0 <= i < |ws| && ws[i].head.producer in list :: ws[i].head.producer
  }

  /** At least twelve members of the list built on blk. */
  ghost predicate Confirms(net: Net, list: seq<string>, blk: SpvBlock, ws: seq<SpvBlock>) {
    VerifiesSelf(net, blk) && Follows(net, blk, ws) && |Makers(list, ws)| >= QUORUM
  }

  lemma {:induction false} ListedAtMost(list: seq<string>, s: set<string>)
    requires forall x :: x in s ==> x in list
    ensures |s| <= |list|
  {
    if list != [] {
      var y := list[|list| - 1];
      ListedAtMost(list[..|list| - 1], s - {y});
      assert |s| <= |s - {y}| + 1;
    } else {
      assert s == {};
    }
  }

  /** Two blocks confirmed by one list share at least seven of the producers that confirmed them. */
  lemma ConfirmationsOverlap(net: Net, list: seq<string>, a: SpvBlock, ws: seq<SpvBlock>, b: SpvBlock,
                             vs: seq<SpvBlock>)
    requires |list| == VERIFIER_NUM && Confirms(net, list, a, ws) && Confirms(net, list, b, vs)
    ensures |Makers(list, ws) * Makers(list, vs)| >= 7
  {
    var x, y := Makers(list, ws), Makers(list, vs);
    ListedAtMost(list, x + y);
    assert |x + y| == |x| + |y| - |x * y|;
  }

  // ---------------------------------------------------------------- what was accepted

  /**
   An accepted block with the blocks that confirmed it; `prev` is the vote that brought the list they
   are judged by.
   */
  datatype Vote = Vote(prev: int, blk: SpvBlock, ws: seq<SpvBlock>)

  /** The votes that a verifier accepted, one after the other, and the start it was given; -1 stands for the start. */
  datatype Log = Log(start: int, first: seq<string>, votes: seq<Vote>)
  {
    ghost predicate Has(i: int) {
      -1 <= i < |votes|
    }

    ghost function Number(i: int): int
      requires Has(i)
    {
      if i == -1 then start else votes[i].blk.head.number
    }

    ghost function List(net: Net, i: int): seq<string>
      requires Has(i)
    {
      if i == -1 then first else PendingList(net, votes[i].blk.receipts)
    }

    /** The vote is for the epoch after that of an earlier vote, and the list of that one confirms it. */
    ghost predicate Vouched(net: Net, i: nat)
      requires i < |votes|
    {
      && -1 <= votes[i].prev < i
      && Number(i) == Number(votes[i].prev) + VOTE_INTERVAL
      && |List(net, i)| == VERIFIER_NUM
      && Confirms(net, List(net, votes[i].prev), votes[i].blk, votes[i].ws)
    }

    ghost predicate Valid(net: Net) {
      |first| == VERIFIER_NUM && forall i {:trigger votes[i]} :: 0 <= i < |votes| ==> Vouched(net, i)
    }

    /** The receipts of the vote are those that its head commits to. */
    ghost predicate Matches(i: nat)
      requires i < |votes|
    {
      votes[i].blk.receipts == votes[i].blk.head.txReceiptMerkleHash
    }

    ghost predicate AllMatch(i: int) {
      forall k: nat :: k <= i && k < |votes| ==> Matches(k)
    }

    /** The lists that confirmed the votes up to i are mostly honest. */
    ghost predicate HonestUpTo(net: Net, i: int) {
      forall k :: -1 <= k < i && Has(k) ==> MostlyHonest(net, List(net, k))
    }
  }

  lemma {:induction false} LaterEpochs(net: Net, log: Log, i: int)
    requires log.Valid(net) && log.Has(i)
    ensures log.Number(i) >= log.start && (log.Number(i) - log.start) % VOTE_INTERVAL == 0 &&
            |log.List(net, i)| == VERIFIER_NUM
    ensures log.Number(i) == log.start <==> i == -1
    decreases i + 1
  {
    hide Confirms, PendingList;
    if i >= 0 {
      assert log.Vouched(net, i);
      LaterEpochs(net, log, log.votes[i].prev);
    }
  }

  // ---------------------------------------------------------------- agreement

  /** The heads lead from h to a head by w, each the child of the one before it, and all of them are signed. */
  ghost predicate Leads(net: Net, w: string, h: BlockHead, heads: seq<BlockHead>) {
    && heads != [] && heads[|heads| - 1].producer == w
    && forall i :: 0 <= i < |heads| ==> Linked(net, h, heads, i)
  }

  ghost predicate Linked(net: Net, h: BlockHead, heads: seq<BlockHead>, i: nat)
    requires i < |heads|
  {
    Signed(net, heads[i]) && heads[i].parentHash == Sha3(if i == 0 then h else heads[i - 1])
  }

  /** w has signed a head above h. */
  ghost predicate BuiltOn(net: Net, w: string, h: BlockHead) {
    exists heads: seq<BlockHead> :: Leads(net, w, h, heads)
  }

  /** w has built on two heads of the same number. */
  ghost predicate Equivocates(net: Net, w: string) {
    exists g: BlockHead, h: BlockHead :: g != h && g.number == h.number && BuiltOn(net, w, g) && BuiltOn(net, w, h)
  }

  /** Fewer than seven of the listed producers have built on two heads of the same number. */
  ghost predicate MostlyHonest(net: Net, list: seq<string>) {
    forall q: set<string> :: (forall w :: w in q ==> w in list && Equivocates(net, w)) ==> |q| < 7
  }

  lemma MakerBuiltOn(net: Net, list: seq<string>, blk: SpvBlock, ws: seq<SpvBlock>, w: string)
    requires Confirms(net, list, blk, ws) && w in Makers(list, ws)
    ensures BuiltOn(net, w, blk.head)
  {
    var k :| 0 <= k < |ws| && ws[k].head.producer == w;
    var heads := seq(k + 1, i requires 0 <= i <= k => ws[i].head);
    forall i | 0 <= i < |heads| ensures Linked(net, blk.head, heads, i) {
      assert IsNext(net, blk, ws, i);
      assert net.verify(heads[i], ws[i].sign);
    }
    assert Leads(net, w, blk.head, heads);
  }

  /** Under one mostly honest list, no two different blocks of the same number are confirmed. */
  lemma ConfirmedOnce(net: Net, list: seq<string>, a: SpvBlock, ws: seq<SpvBlock>, b: SpvBlock, vs: seq<SpvBlock>)
    requires |list| == VERIFIER_NUM && MostlyHonest(net, list)
    requires Confirms(net, list, a, ws) && Confirms(net, list, b, vs) && a.head.number == b.head.number
    ensures a.head == b.head
  {
    ConfirmationsOverlap(net, list, a, ws, b, vs);
    var q := Makers(list, ws) * Makers(list, vs);
    if a.head != b.head {
      forall w | w in q ensures w in list && Equivocates(net, w) {
        MakerBuiltOn(net, list, a, ws, w);
        MakerBuiltOn(net, list, b, vs, w);
      }
    }
  }

  /**
   Two verifiers that start from the same list agree on every epoch that both have recorded, provided that each
   checks the receipts against the head and that fewer than seven members of each list on the way have built on
   two heads of the same number.
   */
  lemma {:induction false} VerifiersAgree(net: Net, a: Log, i: int, b: Log, j: int)
    requires a.Valid(net) && b.Valid(net) && a.start == b.start && a.first == b.first && a.Has(i) && b.Has(j)
    requires a.AllMatch(i) && b.AllMatch(j) && a.HonestUpTo(net, i)
    requires a.Number(i) == b.Number(j)
    ensures a.List(net, i) == b.List(net, j)
    decreases i + 1
  {
    hide Confirms, PendingList, MostlyHonest, Log.AllMatch, Log.HonestUpTo, Log.Valid;
    LaterEpochs(net, a, i);
    LaterEpochs(net, b, j);
    if i >= 0 {
      var v, w := a.votes[i], b.votes[j];
      VoteIsVouched(net, a, i);
      VoteIsVouched(net, b, j);
      EarlierMatch(a, v.prev, i);
      EarlierMatch(b, w.prev, j);
      EarlierHonest(net, a, v.prev, i);
      VerifiersAgree(net, a, v.prev, b, w.prev);
      ConfirmedOnce(net, a.List(net, v.prev), v.blk, v.ws, w.blk, w.ws);
    }
  }

  lemma EarlierMatch(log: Log, h: int, i: nat)
    requires log.AllMatch(i) && h < i < |log.votes|
    ensures log.AllMatch(h) && log.Matches(i)
  {
  }

  lemma EarlierHonest(net: Net, log: Log, h: int, i: nat)
    requires log.HonestUpTo(net, i) && -1 <= h < i < |log.votes|
    ensures log.HonestUpTo(net, h) && MostlyHonest(net, log.List(net, h))
  {
    hide MostlyHonest;
  }

  lemma VoteIsVouched(net: Net, log: Log, i: nat)
    requires log.Valid(net) && i < |log.votes|
    ensures log.Vouched(net, i) && |log.List(net, log.votes[i].prev)| == VERIFIER_NUM
  {
    hide Confirms, PendingList;
    assert log.Vouched(net, i);
    LaterEpochs(net, log, log.votes[i].prev);
  }

  // ---------------------------------------------------------------- the missing check

  /** The condition under which updateEpoch records the list of a block, given the lists recorded so far. */
  ghost predicate Accepts(net: Net, lists: map<int, seq<string>>, blk: SpvBlock, ws: seq<SpvBlock>) {
    && blk.head.number % VOTE_INTERVAL == 0 && |PendingList(net, blk.receipts)| == VERIFIER_NUM
    && blk.head.number - VOTE_INTERVAL in lists
    && Confirms(net, lists[blk.head.number - VOTE_INTERVAL], blk, ws)
  }

  /** Reference: block i is signed, is complete and continues the chain. */
  ghost predicate Continues(net: Net, blk: SpvBlock, ws: seq<SpvBlock>, i: nat)
    requires i < |ws|
  {
    && net.verify(ws[i].head, ws[i].sign) && |ws[i].receipts| == ws[i].txNum
    && ws[i].head.number == blk.head.number + 1 + i
    && ws[i].head.parentHash == Sha3(if i == 0 then blk.head else ws[i - 1].head)
  }

  lemma FollowsExact(net: Net, blk: SpvBlock, ws: seq<SpvBlock>)
    ensures Follows(net, blk, ws) <==> forall i :: 0 <= i < |ws| ==> Continues(net, blk, ws, i)
  {
    forall i | 0 <= i < |ws| ensures IsNext(net, blk, ws, i) <==> Continues(net, blk, ws, i) {
    }
  }

  /** That condition in full: a linked chain of signed blocks, twelve listed producers, a list of seventeen. */
  lemma AcceptsExact(net: Net, lists: map<int, seq<string>>, blk: SpvBlock, ws: seq<SpvBlock>)
    ensures Accepts(net, lists, blk, ws) <==>
            && blk.head.number % 1200 == 0 && blk.head.number - 1200 in lists
            && |PendingList(net, blk.receipts)| == 17
            && net.verify(blk.head, blk.sign) && |blk.receipts| == blk.txNum
            && (forall i :: 0 <= i < |ws| ==> Continues(net, blk, ws, i))
            && |Builders(lists[blk.head.number - 1200], ws)| >= 12
  {
    hide PendingList, Makers, Builders, Follows, Continues;
    FollowsExact(net, blk, ws);
    if blk.head.number - 1200 in lists {
      MakersAre(lists[blk.head.number - 1200], ws);
    }
  }

  /** Reference: the members of the list among the producers of the blocks. */
  function Builders(list: seq<string>, ws: seq<SpvBlock>): set<string> {
    set x | x in list && exists w :: w in ws && w.head.producer == x
  }

  lemma MakersAre(list: seq<string>, ws: seq<SpvBlock>)
    ensures Makers(list, ws) == Builders(list, ws)
  {
    forall x | x in Makers(list, ws) ensures x in Builders(list, ws) {
      var i :| 0 <= i < |ws| && ws[i].head.producer in list && ws[i].head.producer == x;
      assert ws[i] in ws;
    }
    forall x | x in Builders(list, ws) ensures x in Makers(list, ws) {
      var w :| w in ws && w.head.producer == x;
      var i :| 0 <= i < |ws| && ws[i] == w;
    }
  }

  /** The lists after updateEpoch. */
  ghost function Recorded(net: Net, lists: map<int, seq<string>>, blk: SpvBlock, ws: seq<SpvBlock>)
    : map<int, seq<string>>
  {
    if Accepts(net, lists, blk, ws) then lists[blk.head.number := PendingList(net, blk.receipts)] else lists
  }

  /** The block with a receipt put in front in place of its first one. */
  function Forged(blk: SpvBlock, content: string): SpvBlock {
    blk.(receipts := if blk.receipts == [] then [] else [[Receipt(STAT, content)]] + blk.receipts[1..])
  }

  lemma SameHeadFollows(net: Net, blk: SpvBlock, other: SpvBlock, ws: seq<SpvBlock>)
    requires Follows(net, blk, ws) && blk.head == other.head
    ensures Follows(net, other, ws)
  {
    forall i | 0 <= i < |ws| ensures IsNext(net, other, ws, i) {
      assert IsNext(net, blk, ws, i);
    }
  }

  /** The receipts are not compared with the head: with the same confirmations, any list of seventeen is recorded. */
  lemma AnyListIsAccepted(net: Net, lists: map<int, seq<string>>, blk: SpvBlock, ws: seq<SpvBlock>, content: string)
    requires Accepts(net, lists, blk, ws)
    requires net.decode(content, []).ok && |net.decode(content, []).list| == VERIFIER_NUM
    ensures var f := Forged(blk, content);
            && f.head == blk.head && Accepts(net, lists, f, ws)
            && Recorded(net, lists, f, ws) == lists[blk.head.number := net.decode(content, []).list]
  {
    var f := Forged(blk, content);
    assert blk.receipts != [];
    FirstStatDecides(net, content, blk.receipts[1..]);
    SameHeadFollows(net, blk, f, ws);
  }

  /** The block has this head and makes updateEpoch record the list. */
  ghost predicate Records(net: Net, lists: map<int, seq<string>>, h: BlockHead, ws: seq<SpvBlock>, list: seq<string>,
                          b: SpvBlock) {
    b.head == h && Accepts(net, lists, b, ws) && Recorded(net, lists, b, ws) == lists[h.number := list]
  }

  /**
   What updateEpoch may record for a confirmed head: every complete list that some receipts carry. If the receipts
   were compared with the head, it would be the list that the head commits to and no other.
   */
  lemma RecordableExact(net: Net, lists: map<int, seq<string>>, blk: SpvBlock, ws: seq<SpvBlock>, list: seq<string>)
    requires Accepts(net, lists, blk, ws)
    ensures (exists b: SpvBlock :: Records(net, lists, blk.head, ws, list, b)) <==>
            |list| == VERIFIER_NUM && exists rs: seq<seq<Receipt>> :: PendingList(net, rs) == list
    ensures var committed := blk.head.txReceiptMerkleHash;
            (exists b: SpvBlock :: Records(net, lists, blk.head, ws, list, b) && b.receipts == committed) <==>
            |list| == VERIFIER_NUM && PendingList(net, committed) == list
  {
    hide PendingList, Confirms;
    forall b: SpvBlock | Records(net, lists, blk.head, ws, list, b)
      ensures |list| == VERIFIER_NUM && PendingList(net, b.receipts) == list
    {
      assert Recorded(net, lists, b, ws)[blk.head.number] == lists[blk.head.number := list][blk.head.number];
    }
    if |list| == VERIFIER_NUM {
      forall rs: seq<seq<Receipt>> | PendingList(net, rs) == list
        ensures Records(net, lists, blk.head, ws, list, blk.(receipts := rs, txNum := |rs|))
      {
        WithReceipts(net, lists, blk, ws, rs);
      }
    }
  }

  lemma WithReceipts(net: Net, lists: map<int, seq<string>>, blk: SpvBlock, ws: seq<SpvBlock>, rs: seq<seq<Receipt>>)
    requires Accepts(net, lists, blk, ws) && |PendingList(net, rs)| == VERIFIER_NUM
    ensures Accepts(net, lists, blk.(receipts := rs, txNum := |rs|), ws)
  {
    hide PendingList;
    SameHeadFollows(net, blk, blk.(receipts := rs, txNum := |rs|), ws);
  }

  // ---------------------------------------------------------------- the verifier

  class Verifier {
    const net: Net
    var epochProducer: map<int, seq<string>>
    ghost var log: Log              // everything that was accepted since Init
    ghost var at: map<int, int>     // the vote that brought each recorded list

    /** Every recorded list comes from a vote that was accepted. */
    ghost predicate Valid()
      reads this
    {
      && log.Valid(net) && at.Keys == epochProducer.Keys
      && forall n :: n in at ==> log.Has(at[n]) && log.Number(at[n]) == n && log.List(net, at[n]) == epochProducer[n]
    }

    constructor (net: Net)
      ensures epochProducer == map[] && this.net == net
    {
      this.net, epochProducer := net, map[];
    }

    /** init: the list of the first block is believed. */
    method Init(blk: SpvBlock) returns (e: Option<SpvError>)
      modifies this
      ensures var list := PendingList(net, blk.receipts);
              && (e.None? <==> blk.head.number % VOTE_INTERVAL == 0 && |list| == VERIFIER_NUM)
              && (e.None? ==> Valid() && log == Log(blk.head.number, list, []))
              && (e.None? ==> epochProducer == map[blk.head.number := list])
              && (e.Some? ==> epochProducer == old(epochProducer))
    {
      if blk.head.number % VOTE_INTERVAL != 0 {
        return Some(InvalidStart);
      }
      var list := WitnessStatus(net, blk);
      if |list| != VERIFIER_NUM {
        return Some(InvalidPendingList);
      }
      epochProducer := map[blk.head.number := list];
      log, at := Log(blk.head.number, list, []), map[blk.head.number := -1];
      e := None;
    }

    /** The epoch whose list must confirm a block: a block that starts an epoch belongs to the one before. */
    function EpochOf(number: int): int {
      if number % VOTE_INTERVAL == 0 then number - VOTE_INTERVAL else TruncDiv(number, VOTE_INTERVAL) * VOTE_INTERVAL
    }

    /** It is the last multiple of 1200 before the number. */
    lemma EpochExact(number: nat)
      ensures EpochOf(number) % 1200 == 0 && EpochOf(number) < number <= EpochOf(number) + 1200
    {
    }

    method AllVerify(ws: seq<SpvBlock>) returns (ok: bool)
      ensures ok <==> forall i :: 0 <= i < |ws| ==> VerifiesSelf(net, ws[i])
    {
      for i := 0 to |ws|
        invariant forall k :: 0 <= k < i ==> VerifiesSelf(net, ws[k])
      {
        if !VerifiesSelf(net, ws[i]) {
          return false;
        }
      }
      ok := true;
    }

    /** The loop of checkWitness: the number of listed producers that built on blk. */
    method CountMakers(list: seq<string>, blk: SpvBlock, ws: seq<SpvBlock>) returns (e: Option<SpvError>, count: int)
      requires forall i :: 0 <= i < |ws| ==> VerifiesSelf(net, ws[i])
      ensures e.None? <==> Follows(net, blk, ws)
      ensures e.None? ==> count == |Makers(list, ws)|
    {
      hide Makers, Follows;
      var valid: set<string> := {};
      count := 0;
      var parentHash, parentNumber := Sha3(blk.head), blk.head.number;
      NothingFollows(net, list, blk, ws[..0]);
      for i := 0 to |ws|
        invariant parentHash == Sha3((if i == 0 then blk else ws[i - 1]).head) && parentNumber == blk.head.number + i
        invariant Follows(net, blk, ws[..i]) && valid == Makers(list, ws[..i]) && count == |valid|
      {
        var b := ws[i];
        FollowsNext(net, blk, ws, i);
        MakersNext(list, ws, i);
        if b.head.parentHash != parentHash {
          return Some(InvalidHash), count;
        }
        if b.head.number != parentNumber + 1 {
          return Some(InvalidNumber), count;
        }
        if b.head.producer !in valid {
          if b.head.producer in list {
            valid := valid + {b.head.producer};
            count := count + 1;
          }
        }
        parentNumber := b.head.number;
        parentHash := Sha3(b.head);
      }
      assert ws[..|ws|] == ws;
      e := None;
    }

    /** checkWitness: whether enough members of the list of the block's epoch built on the block. */
    method CheckWitness(blk: SpvBlock, ws: seq<SpvBlock>) returns (e: Option<SpvError>)
      ensures e.None? <==>
              EpochOf(blk.head.number) in epochProducer &&
                Confirms(net, epochProducer[EpochOf(blk.head.number)], blk, ws)
    {
      if !VerifiesSelf(net, blk) {
        return Some(InvalidSignature);
      }
      FollowersVerify(net, blk, ws);
      var ok := AllVerify(ws);
      if !ok {
        return Some(InvalidSignature);
      }
      if EpochOf(blk.head.number) !in epochProducer {
        return Some(UnknownEpoch);
      }
      var count;
      e, count := CountMakers(epochProducer[EpochOf(blk.head.number)], blk, ws);
      if e.None? && count < QUORUM {
        e := Some(NotEnough);
      }
    }

    /** updateEpoch: a list is recorded exactly if the list before it confirms the block, and the vote is logged. */
    method UpdateEpoch(blk: SpvBlock, ws: seq<SpvBlock>) returns (e: Option<SpvError>)
      requires Valid()
      modifies this
      ensures Valid() && (e.None? <==> Accepts(net, old(epochProducer), blk, ws))
      ensures epochProducer == Recorded(net, old(epochProducer), blk, ws)
      ensures e.Some? ==> log == old(log)
      ensures e.None? ==>
                && blk.head.number - VOTE_INTERVAL in old(at)
                && log == old(log).(votes := old(log).votes + [Vote(old(at)[blk.head.number - VOTE_INTERVAL], blk, ws)])
    {
      hide Confirms, PendingList, Log.Valid;
      var n := blk.head.number;
      if n % VOTE_INTERVAL != 0 {
        return Some(InvalidStart);
      }
      var list := WitnessStatus(net, blk);
      if |list| != VERIFIER_NUM {
        return Some(InvalidPendingList);
      }
      e := CheckWitness(blk, ws);
      if e.Some? {
        return;
      }
      LogGrows(net, log, Vote(at[n - VOTE_INTERVAL], blk, ws));
      epochProducer := epochProducer[n := list];
      at := at[n := |log.votes|];
      log := log.(votes := log.votes + [Vote(at[n - VOTE_INTERVAL], blk, ws)]);
    }
  }

  lemma LogGrows(net: Net, log: Log, v: Vote)
    requires log.Valid(net) && log.Has(v.prev)
    requires v.blk.head.number == log.Number(v.prev) + VOTE_INTERVAL &&
             |PendingList(net, v.blk.receipts)| == VERIFIER_NUM
    requires Confirms(net, log.List(net, v.prev), v.blk, v.ws)
    ensures var more := log.(votes := log.votes + [v]);
            && more.Valid(net)
            && forall i :: log.Has(i) ==>
               more.Has(i) && more.Number(i) == log.Number(i) && more.List(net, i) == log.List(net, i)
  {
    hide Confirms, PendingList;
    var more := log.(votes := log.votes + [v]);
    forall i | 0 <= i < |more.votes| ensures more.Vouched(net, i) {
      if i < |log.votes| {
        assert log.Vouched(net, i) && more.votes[i] == log.votes[i];
      }
    }
  }

  lemma NothingFollows(net: Net, list: seq<string>, blk: SpvBlock, ws: seq<SpvBlock>)
    requires ws == []
    ensures Follows(net, blk, ws) && Makers(list, ws) == {}
  {
  }

  lemma FollowsNext(net: Net, blk: SpvBlock, ws: seq<SpvBlock>, i: nat)
    requires i < |ws| && VerifiesSelf(net, ws[i]) && Follows(net, blk, ws[..i])
    ensures var parent := if i == 0 then blk else ws[i - 1];
            ws[i].head.parentHash == Sha3(parent.head) && ws[i].head.number == blk.head.number + 1 + i <==>
            Follows(net, blk, ws[..i + 1])
    ensures Follows(net, blk, ws) ==> Follows(net, blk, ws[..i + 1])
  {
    var v, w := ws[..i], ws[..i + 1];
    forall k | 0 <= k <= i ensures IsNext(net, blk, w, k) <==> IsNext(net, blk, ws, k) {
    }
    forall k | 0 <= k < i ensures IsNext(net, blk, w, k) {
      assert IsNext(net, blk, v, k);
    }
    assert Follows(net, blk, w) <==> IsNext(net, blk, w, i);
  }

  lemma FollowersVerify(net: Net, blk: SpvBlock, ws: seq<SpvBlock>)
    ensures Follows(net, blk, ws) ==> forall i :: 0 <= i < |ws| ==> VerifiesSelf(net, ws[i])
  {
    if Follows(net, blk, ws) {
      forall i | 0 <= i < |ws| ensures VerifiesSelf(net, ws[i]) {
        assert IsNext(net, blk, ws, i);
      }
    }
  }

  lemma MakersNext(list: seq<string>, ws: seq<SpvBlock>, i: nat)
    requires i < |ws|
    ensures Makers(list, ws[..i + 1]) ==
            Makers(list, ws[..i]) + (if ws[i].head.producer in list then {ws[i].head.producer} else {})
  {
    var w, v := ws[..i + 1], ws[..i];
    forall x | x in Makers(list, v) ensures x in Makers(list, w) {
      var k :| 0 <= k < |v| && v[k].head.producer in list && v[k].head.producer == x;
      assert w[k] == v[k];
    }
    if ws[i].head.producer in list {
      assert w[i].head.producer in Makers(list, w);
    }
    forall x | x in Makers(list, w)
      ensures x in Makers(list, v) + (if ws[i].head.producer in list then {ws[i].head.producer} else {})
    {
      var k :| 0 <= k < |w| && w[k].head.producer in list && w[k].head.producer == x;
      if k < i {
        assert v[k] == w[k];
      }
    }
  }
}
