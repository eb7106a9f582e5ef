/**
 The ledger: transactions, blocks and the chain, with the reward and balance arithmetic,
 the bounded appends and the proof-of-work loop of pkg/blockchain/blockchain.go.

 Blocks and chains are values (Go stores them in slices and passes them by value); the
 operations Go runs through a pointer receiver to change a block or a chain in place are
 methods of BlockRef and ChainRef, which stand for `*Block` and `*Chain`.
 The content hash and the signature check are not modelled: they are parameters
 `hashSum: BlockData -> string` and `verify: Creature -> bool`.
 */
module Blockchain {
  import opened Wrappers
  import opened Ints
  import Utility

  const CreatorReward: int := 1024
  const BlockMaxLen: nat := 2
  const ChainMaxLen: nat := 1024

  /** The signed envelope shared by transactions and blocks. */
  datatype Creature = Creature(verifier: string, signature: string, hash: string) {
    /** The object fails its signature check. */
    predicate Invalid(verify: Creature -> bool) {
      !verify(this)
    }
  }

  datatype TransactionData = TransactionData(
    id: uint64, previous: string, sender: string, receiver: string, amount: int64)

  datatype Transaction = Transaction(creature: Creature, data: TransactionData)

  datatype BlockData = BlockData(
    nonce: uint32, previous: string, miner: string, transactions: seq<Transaction>)

  // ---------------------------------------------------------------------------
  // Specification of the reward and of the balances, on exact integers

  /** 2^k */
  function Pow2(k: nat): (p: nat)
    ensures p >= 1
  {
    if k == 0 then 1 else 2 * Pow2(k - 1)
  }

  /** The number of leading 'A' characters of a hash (the base64 digit of a zero bit pattern). */
  function LeadingAs(hash: string): (k: nat)
    ensures k <= |hash|
    ensures forall i :: 0 <= i < k ==> hash[i] == 'A'
    ensures k < |hash| ==> hash[k] != 'A'
  {
    if |hash| == 0 || hash[0] != 'A' then 0 else 1 + LeadingAs(hash[1..])
  }

  /**
   What one transaction contributes to the balance of addr. Go's `switch addr` takes the
   first matching case, so a transfer from addr to itself counts as a debit only.
   */
  function TxIncome(tx: Transaction, addr: string): int {
    if addr == tx.data.sender then -(tx.data.amount as int)
    else if addr == tx.data.receiver then tx.data.amount
    else 0
  }

  function TxsIncome(txs: seq<Transaction>, addr: string): int {
    if |txs| == 0 then 0 else TxIncome(txs[0], addr) + TxsIncome(txs[1..], addr)
  }

  function BlocksIncome(blocks: seq<Block>, addr: string): int {
    if |blocks| == 0 then 0 else blocks[0].Income(addr) + BlocksIncome(blocks[1..], addr)
  }

  datatype Block = Block(creature: Creature, data: BlockData) {
    function Len(): nat {
      |data.transactions|
    }

    predicate Full() {
      Len() >= BlockMaxLen
    }

    /** The block with tx added after its transactions: the effect of a successful Append. */
    function WithTx(tx: Transaction): Block {
      this.(data := data.(transactions := data.transactions + [tx]))
    }

    /** The exact (unwrapped) reward of this block's miner. */
    function RewardValue(): nat {
      Pow2(LeadingAs(creature.hash))
    }

    /** The exact (unwrapped) balance change this block brings to addr. */
    function Income(addr: string): int {
      TxsIncome(data.transactions, addr) + (if addr == data.miner then RewardValue() else 0)
    }

    /** Start at 1 and double for every leading 'A' of the hash, in int64 arithmetic. */
    method Reward() returns (reward: int64)
      ensures reward == Wrap64(Pow2(LeadingAs(creature.hash)))
    {
      var hash := creature.hash;
      reward := 1;
      var i := 0;
      while i < |hash|
        invariant 0 <= i <= |hash|
        invariant forall j :: 0 <= j < i ==> hash[j] == 'A'
        invariant reward == Wrap64(Pow2(i))
        decreases |hash| - i
      {
        if hash[i] != 'A' {
          break;
        }
        WrapDouble64(Pow2(i));
        reward := Wrap64(reward * 2);
        i := i + 1;
      }
      assert i == LeadingAs(hash);
    }

    /** Sum the transactions that involve addr, then add the reward if addr mined the block. */
    method Balance(addr: string) returns (balance: int64)
      ensures balance == Wrap64(Income(addr))
    {
      var txs := data.transactions;
      balance := 0;
      for i := 0 to |txs|
        invariant balance == Wrap64(TxsIncome(txs[..i], addr))
      {
        var tx := txs[i];
        AccumulateTx(txs[..i], tx, addr);
        assert txs[..i + 1] == txs[..i] + [tx];
        if addr == tx.data.sender {
          balance := Wrap64(balance - tx.data.amount);
        } else if addr == tx.data.receiver {
          balance := Wrap64(balance + tx.data.amount);
        }
      }
      assert txs[..|txs|] == txs;
      if addr == data.miner {
        var reward := Reward();
        WrapAdd64(TxsIncome(txs, addr), RewardValue());
        WrapAdd64(TxsIncome(txs, addr), Wrap64(RewardValue()));
        balance := Wrap64(balance + reward);
      }
    }
  }

  /** One step of Block.Balance: the switch on addr adds the transaction's income, in int64. */
  lemma AccumulateTx(done: seq<Transaction>, tx: Transaction, addr: string)
    ensures addr == tx.data.sender ==>
              Wrap64(Wrap64(TxsIncome(done, addr)) - tx.data.amount) == Wrap64(TxsIncome(done + [tx], addr))
    ensures addr != tx.data.sender && addr == tx.data.receiver ==>
              Wrap64(Wrap64(TxsIncome(done, addr)) + tx.data.amount) == Wrap64(TxsIncome(done + [tx], addr))
    ensures addr != tx.data.sender && addr != tx.data.receiver ==>
              Wrap64(TxsIncome(done, addr)) == Wrap64(TxsIncome(done + [tx], addr))
  {
    TxsIncomeSnoc(done, tx, addr);
    WrapAdd64(TxsIncome(done, addr), TxIncome(tx, addr));
  }

  /** The fresh pending block that links to the hash `previous`. */
  function NewBlock(previous: string): Block {
    Block(Creature("", "", ""), BlockData(0, previous, "", []))
  }

  datatype Chain = Chain(creator: string, blocks: seq<Block>) {
    function Len(): nat {
      |blocks|
    }

    function Block(index: int): Option<Block> {
      if 0 <= index < Len() then Some(blocks[index]) else None
    }

    function Hash(index: int): string {
      var block := Block(index);
      if block.Some? then block.value.creature.hash else Utility.HashNull
    }

    predicate Empty() {
      Len() < 1
    }

    function Last(): int {
      Len() - 1
    }

    /** The hash that a new block must carry as its `previous`. */
    function Previous(): string {
      Hash(Last())
    }

    /** The chain with block added at the end: the effect of a successful Append. */
    function WithBlock(block: Block): Chain {
      this.(blocks := blocks + [block])
    }

    /** The exact (unwrapped) balance of addr: the creator's one-time reward plus every block. */
    function Income(addr: string): int {
      (if addr == creator then CreatorReward else 0) + BlocksIncome(blocks, addr)
    }

    /** The creator reward, then every block's balance, in int64 arithmetic. */
    method Balance(addr: string) returns (balance: int64)
      ensures balance == Wrap64(Income(addr))
    {
      balance := 0;
      if addr == creator {
        balance := balance + CreatorReward;
      }
      ghost var bonus := balance;
      for i := 0 to |blocks|
        invariant balance == Wrap64(bonus + BlocksIncome(blocks[..i], addr))
      {
        var b := blocks[i].Balance(addr);
        AccumulateBlock(bonus, blocks[..i], blocks[i], addr);
        assert blocks[..i + 1] == blocks[..i] + [blocks[i]];
        balance := Wrap64(balance + b);
      }
      assert blocks[..|blocks|] == blocks;
    }
  }

  lemma AccumulateBlock(bonus: int, done: seq<Block>, b: Block, addr: string)
    ensures Wrap64(Wrap64(bonus + BlocksIncome(done, addr)) + Wrap64(b.Income(addr)))
            == Wrap64(bonus + BlocksIncome(done + [b], addr))
  {
    BlocksIncomeSnoc(done, b, addr);
    WrapAdd64(bonus + BlocksIncome(done, addr), b.Income(addr));
    WrapAdd64(bonus + BlocksIncome(done, addr), Wrap64(b.Income(addr)));
  }

  // ---------------------------------------------------------------------------
  // In-place state: the pointers through which Go changes a block, a chain, a flag

  /** The `*bool` through which mining is started and cancelled. */
  class Flag {
    var raised: bool

    constructor (raised: bool)
      ensures this.raised == raised
    {
      this.raised := raised;
    }
  }

  /** The first dfc characters of hash are those of the all-zero hash. */
  predicate Meets(hash: string, dfc: int)
    requires 0 <= dfc <= |hash| && dfc <= |Utility.HashZero|
  {
    hash[..dfc] == Utility.HashZero[..dfc]
  }

  /** The hash of block data d once its nonce is set to n. */
  function HashWithNonce(hashSum: BlockData -> string, d: BlockData, n: uint32): string {
    hashSum(d.(nonce := n))
  }

  /** A `*Block`. */
  class BlockRef {
    var value: Block

    constructor (value: Block)
      ensures this.value == value
    {
      this.value := value;
    }

    /** Appending to a full block is a fatal error (a panic), so callers must check Len first. */
    method Append(tx: Transaction)
      requires value.Len() < BlockMaxLen
      modifies this
      ensures value.data.transactions == old(value.data.transactions) + [tx]
      ensures value.creature == old(value.creature)
      ensures value.data.(transactions := []) == old(value.data).(transactions := [])
    {
      value := value.WithTx(tx);
    }

    /**
     Proof of work, in a sequential run: nothing clears the flag while the loop runs, so the
     loop stops at the first nonce from the current one whose hash meets the difficulty,
     or at the largest nonce, and the flag is still raised on return.
     */
    method Mine(miner: string, dfc: int, mining: Flag, hashSum: BlockData -> string) returns (ok: bool)
      requires 0 <= dfc <= |Utility.HashZero|
      requires forall d :: dfc <= |hashSum(d)|
      modifies this, mining
      ensures ok && mining.raised
      ensures value.data == old(value.data).(miner := miner, nonce := value.data.nonce)
      ensures value.creature == old(value.creature).(hash := hashSum(value.data))
      ensures old(value.data.nonce) <= value.data.nonce
      ensures value.data.nonce < MaxUint32 ==> Meets(value.creature.hash, dfc)
      ensures forall n: uint32 :: old(value.data.nonce) <= n < value.data.nonce ==>
                !Meets(HashWithNonce(hashSum, old(value.data).(miner := miner), n), dfc)
    {
      value := value.(data := value.data.(miner := miner));
      value := value.(creature := value.creature.(hash := hashSum(value.data)));
      mining.raised := true;
      ghost var start, base := value.data.nonce, value.data;
      while mining.raised && value.data.nonce < MaxUint32 && !Meets(value.creature.hash, dfc)
        invariant mining.raised
        invariant value.data == old(value.data).(miner := miner, nonce := value.data.nonce)
        invariant value.creature == old(value.creature).(hash := hashSum(value.data))
        invariant start <= value.data.nonce
        invariant forall n: uint32 :: start <= n < value.data.nonce ==>
                    !Meets(HashWithNonce(hashSum, base, n), dfc)
        decreases MaxUint32 - value.data.nonce
      {
        assert value.creature.hash == HashWithNonce(hashSum, base, value.data.nonce);
        value := value.(data := value.data.(nonce := value.data.nonce + 1));
        value := value.(creature := value.creature.(hash := hashSum(value.data)));
      }
      ok := mining.raised;
    }
  }

  /** A `*Chain`. */
  class ChainRef {
    var value: Chain

    constructor (value: Chain)
      ensures this.value == value
    {
      this.value := value;
    }

    /** Appending to a chain of ChainMaxLen blocks is a fatal error (a panic). */
    method Append(block: Block)
      requires value.Len() < ChainMaxLen
      modifies this
      ensures value.blocks == old(value.blocks) + [block]
      ensures value.creator == old(value.creator)
    {
      value := value.WithBlock(block);
    }
  }

  // ---------------------------------------------------------------------------
  // Lemmas: reward

  lemma {:induction false} Pow2Add(a: nat, b: nat)
    ensures Pow2(a + b) == Pow2(a) * Pow2(b)
  {
    if a > 0 {
      Pow2Add(a - 1, b);
    }
  }

  /** 2^62, the largest power of two below the int64 maximum. */
  lemma Pow2Of62()
    ensures Pow2(62) == 0x4000_0000_0000_0000
  {
    assert Pow2(2) == 4;
    assert Pow2(10) == 1024;
    Pow2Add(10, 10);
    assert Pow2(20) == 0x10_0000;
    Pow2Add(20, 20);
    assert Pow2(40) == 0x100_0000_0000;
    Pow2Add(40, 20);
    assert Pow2(60) == 0x1000_0000_0000_0000;
    Pow2Add(60, 2);
  }

  lemma Pow2Bounded(k: nat)
    requires k < 63
    ensures Pow2(k) <= 0x4000_0000_0000_0000
  {
    Pow2Of62();
    Pow2Monotone(k, 62);
  }

  lemma {:induction false} Pow2Monotone(j: nat, k: nat)
    requires j <= k
    ensures Pow2(j) <= Pow2(k)
  {
    if j < k {
      Pow2Monotone(j, k - 1);
    }
  }

  /** No wrap-around for hashes of fewer than 63 leading 'A's: the reward is exactly 2^k >= 1. */
  lemma RewardIsPow2(b: Block)
    requires LeadingAs(b.creature.hash) < 63
    ensures Wrap64(Pow2(LeadingAs(b.creature.hash))) == Pow2(LeadingAs(b.creature.hash)) >= 1
  {
    Pow2Bounded(LeadingAs(b.creature.hash));
  }

  /** A hash that is empty or does not start with 'A' earns a reward of exactly 1. */
  lemma RewardOne(b: Block)
    requires |b.creature.hash| == 0 || b.creature.hash[0] != 'A'
    ensures Wrap64(Pow2(LeadingAs(b.creature.hash))) == 1
  {
  }

  /** A base64 SHA-256 hash has 44 characters, so its reward never wraps around. */
  lemma RewardNoWrap(b: Block)
    requires |b.creature.hash| <= 62
    ensures Wrap64(Pow2(LeadingAs(b.creature.hash))) == b.RewardValue() >= 1
  {
    RewardIsPow2(b);
  }

  /** A hash whose first n characters are 'A' has at least n leading 'A's. */
  lemma LeadingAtLeast(h: string, n: nat)
    requires n <= |h| && forall i :: 0 <= i < n ==> h[i] == 'A'
    ensures LeadingAs(h) >= n
  {
  }

  /** A hash that meets difficulty dfc starts with at least dfc 'A's, so it earns at least 2^dfc. */
  lemma MinedReward(b: Block, dfc: int)
    requires 0 <= dfc < |Utility.HashZero| && dfc <= |b.creature.hash|
    requires Meets(b.creature.hash, dfc)
    ensures LeadingAs(b.creature.hash) >= dfc
    ensures b.RewardValue() >= Pow2(dfc)
  {
    var h := b.creature.hash;
    Utility.HashZeroShape();
    forall i | 0 <= i < dfc
      ensures h[i] == 'A'
    {
      assert h[i] == h[..dfc][i] == Utility.HashZero[..dfc][i] == Utility.HashZero[i];
    }
    LeadingAtLeast(h, dfc);
    Pow2Monotone(dfc, LeadingAs(h));
  }

  // ---------------------------------------------------------------------------
  // Lemmas: balances

  lemma {:induction false} TxsIncomeSnoc(txs: seq<Transaction>, tx: Transaction, addr: string)
    ensures TxsIncome(txs + [tx], addr) == TxsIncome(txs, addr) + TxIncome(tx, addr)
  {
    if |txs| == 0 {
      assert txs + [tx] == [tx];
    } else {
      assert (txs + [tx])[1..] == txs[1..] + [tx];
      TxsIncomeSnoc(txs[1..], tx, addr);
    }
  }

  lemma {:induction false} BlocksIncomeSnoc(blocks: seq<Block>, b: Block, addr: string)
    ensures BlocksIncome(blocks + [b], addr) == BlocksIncome(blocks, addr) + b.Income(addr)
  {
    if |blocks| == 0 {
      assert blocks + [b] == [b];
    } else {
      assert (blocks + [b])[1..] == blocks[1..] + [b];
      BlocksIncomeSnoc(blocks[1..], b, addr);
    }
  }

  lemma {:induction false} BlocksIncomeConcat(xs: seq<Block>, ys: seq<Block>, addr: string)
    ensures BlocksIncome(xs + ys, addr) == BlocksIncome(xs, addr) + BlocksIncome(ys, addr)
  {
    if |xs| == 0 {
      assert xs + ys == ys;
    } else {
      assert (xs + ys)[1..] == xs[1..] + ys;
      BlocksIncomeConcat(xs[1..], ys, addr);
    }
  }

  /** A transfer from addr to itself debits addr by the amount and credits nothing. */
  lemma SelfTransfer(b: Block, tx: Transaction, addr: string)
    requires tx.data.sender == addr && tx.data.receiver == addr
    ensures b.WithTx(tx).Income(addr) == b.Income(addr) - tx.data.amount
  {
    TxsIncomeSnoc(b.data.transactions, tx, addr);
  }

  /**
   Adding a transaction to a block moves its amount from the sender to a distinct receiver and
   leaves every other address's balance where it was.
   */
  lemma TransferMovesAmount(b: Block, tx: Transaction, addr: string)
    ensures addr == tx.data.sender ==>
              b.WithTx(tx).Income(addr) == b.Income(addr) - tx.data.amount
    ensures addr != tx.data.sender && addr == tx.data.receiver ==>
              b.WithTx(tx).Income(addr) == b.Income(addr) + tx.data.amount
    ensures addr != tx.data.sender && addr != tx.data.receiver ==>
              b.WithTx(tx).Income(addr) == b.Income(addr)
  {
    TxsIncomeSnoc(b.data.transactions, tx, addr);
  }

  lemma {:induction false} UninvolvedTxs(txs: seq<Transaction>, addr: string)
    requires forall i :: 0 <= i < |txs| ==> txs[i].data.sender != addr && txs[i].data.receiver != addr
    ensures TxsIncome(txs, addr) == 0
  {
    if |txs| > 0 {
      UninvolvedTxs(txs[1..], addr);
    }
  }

  /** An address that neither sends, receives nor mines in a block has block balance 0. */
  lemma UninvolvedBlock(b: Block, addr: string)
    requires forall i :: 0 <= i < b.Len() ==>
               b.data.transactions[i].data.sender != addr && b.data.transactions[i].data.receiver != addr
    requires addr != b.data.miner
    ensures b.Income(addr) == 0
  {
    UninvolvedTxs(b.data.transactions, addr);
  }

  /** Appending a block to a chain adds exactly that block's balance; no second creator reward. */
  lemma AppendIncome(c: Chain, b: Block, addr: string)
    ensures c.WithBlock(b).Income(addr) == c.Income(addr) + b.Income(addr)
  {
    BlocksIncomeSnoc(c.blocks, b, addr);
  }

  /** However many blocks are appended, the creator reward is counted once. */
  lemma CreatorRewardOnce(c: Chain, more: seq<Block>)
    ensures Chain(c.creator, c.blocks + more).Income(c.creator)
            == CreatorReward + BlocksIncome(c.blocks, c.creator) + BlocksIncome(more, c.creator)
  {
    BlocksIncomeConcat(c.blocks, more, c.creator);
  }

  /** One block holding one transfer A -> B of 100, mined by neither, on a chain created by neither. */
  lemma SingleTransferScenario(creator: string, miner: string, a: string, b: string, tx: Transaction, blk: Block)
    requires a != b && a != miner && b != miner && a != creator && b != creator
    requires tx.data.sender == a && tx.data.receiver == b && tx.data.amount == 100
    requires blk.data.transactions == [tx] && blk.data.miner == miner
    ensures Chain(creator, [blk]).Income(b) == 100
    ensures Chain(creator, [blk]).Income(a) == -100
  {
    assert TxIncome(tx, a) == -100 && TxIncome(tx, b) == 100;
    assert [tx][1..] == [];
    assert TxsIncome([tx], a) == -100 && TxsIncome([tx], b) == 100;
    assert blk.Income(a) == -100 && blk.Income(b) == 100;
    assert [blk][1..] == [];
    assert BlocksIncome([blk], a) == blk.Income(a) + BlocksIncome([], a);
    assert BlocksIncome([blk], b) == blk.Income(b) + BlocksIncome([], b);
  }

  // ---------------------------------------------------------------------------
  // Lemmas: indexing, linkage and capacity

  /** Hash(index) is the hash of the block at index when it exists, otherwise the null hash. */
  lemma HashAt(c: Chain, index: int)
    ensures 0 <= index < c.Len() ==> c.Hash(index) == c.blocks[index].creature.hash
    ensures !(0 <= index < c.Len()) ==> c.Hash(index) == Utility.HashNull
  {
  }

  /** An empty chain links new blocks to the null hash; otherwise to the hash of the last block. */
  lemma PreviousIsTip(c: Chain)
    ensures c.Empty() <==> c.Last() == -1
    ensures c.Empty() ==> c.Previous() == Utility.HashNull
    ensures !c.Empty() ==> c.Previous() == c.blocks[c.Len() - 1].creature.hash
  {
  }

  /** After appending a block, the chain's tip hash is that block's hash. */
  lemma PreviousAfterAppend(c: Chain, b: Block)
    ensures c.WithBlock(b).Previous() == b.creature.hash
    ensures c.WithBlock(b).Last() == c.Len()
  {
  }

  /** A fresh block takes exactly BlockMaxLen = 2 appends to become full. */
  lemma NewBlockFills(previous: string, t1: Transaction, t2: Transaction)
    ensures NewBlock(previous).Len() == 0 && !NewBlock(previous).Full()
    ensures !NewBlock(previous).WithTx(t1).Full()
    ensures NewBlock(previous).WithTx(t1).WithTx(t2).Full()
    ensures NewBlock(previous).WithTx(t1).WithTx(t2).data.transactions == [t1, t2]
  {
  }
}
