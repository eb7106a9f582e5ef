/**
 The peer protocol of pkg/network/network.go: the opcode table that Serve dispatches on,
 the state each handler reads or changes (the chain, the pending block, the mining flag),
 and Choose, which picks the peer to pull a chain from.

 Sockets and the JSON encoding are not modelled: a request is an opcode byte and an
 already-decoded payload, and a handler's reply is a Response value.
 */
module Network {
  import opened Wrappers
  import opened Ints
  import opened Blockchain
  import Utility

  const MiningDifficulty: int := 2

  const OpLength: uint8 := 1
  const OpChain: uint8 := 2
  const OpTx: uint8 := 3
  const OpProve: uint8 := 4
  const OpBalance: uint8 := 5
  const OpHash: uint8 := 6
  const OpLast: uint8 := 7
  const OpAddr: uint8 := 8

  /** The request body after decoding. */
  datatype Payload =
    | NoPayload
    | TxPayload(tx: Transaction)
    | BlockPayload(block: Block)
    | AddrPayload(addr: string)
    | IndexPayload(index: int32)

  /**
   What a handler writes back. Refused stands for the nil slice that TX and PROVE return
   for an object whose signature does not verify: nothing is written before the close.
   */
  datatype Response =
    | Ack
    | Refused
    | Number(n: int)
    | Text(s: string)
    | WholeChain(chain: Chain)

  /*
   Decoding a body into a Go variable of another type. JSON flattens the embedded Creature and
   data structs, and decoding matches fields by name and skips unknown ones. So a block body
   decoded as a transaction (and the other way round) keeps the envelope (Verifier, Signature,
   Hash) and Previous, and leaves every other field at its zero value. A body whose JSON kind
   does not match (a string or number for a struct, and so on) leaves the whole zero value.
   */

  function TxOf(p: Payload): Transaction {
    match p
    case TxPayload(tx) => tx
    case BlockPayload(b) => Transaction(b.creature, TransactionData(0, b.data.previous, "", "", 0))
    case _ => Transaction(Creature("", "", ""), TransactionData(0, "", "", "", 0))
  }

  function BlockOf(p: Payload): Block {
    match p
    case BlockPayload(b) => b
    case TxPayload(tx) => Block(tx.creature, BlockData(0, tx.data.previous, "", []))
    case _ => NewBlock("")
  }

  function AddrOf(p: Payload): string {
    if p.AddrPayload? then p.addr else ""
  }

  function IndexOf(p: Payload): int32 {
    if p.IndexPayload? then p.index else 0
  }

  // ---------------------------------------------------------------------------
  // The dispatch table as a function on the node's state

  datatype NodeState = NodeState(chain: Chain, pending: Block, mining: bool)

  /** The requests that make Serve panic on an append beyond capacity. */
  predicate Panics(s: NodeState, op: uint8, p: Payload, verify: Creature -> bool) {
    || (op == OpTx && !TxOf(p).creature.Invalid(verify) && s.pending.Len() >= BlockMaxLen)
    || (op == OpProve && !BlockOf(p).creature.Invalid(verify) && s.chain.Len() >= ChainMaxLen)
  }

  /** The new state and the reply (None: no reply at all) for one request. */
  function Step(s: NodeState, op: uint8, p: Payload, verify: Creature -> bool, myaddr: string)
    : (NodeState, Option<Response>)
    requires !Panics(s, op, p, verify)
  {
    if op == OpLength then
      (s, Some(Number(Wrap32(s.chain.Len()))))
    else if op == OpChain then
      (s, Some(WholeChain(s.chain)))
    else if op == OpTx then
      var tx := TxOf(p);
      if tx.creature.Invalid(verify) then (s, Some(Refused))
      else (s.(pending := s.pending.WithTx(tx)), Some(Ack))
    else if op == OpProve then
      var block := BlockOf(p);
      if block.creature.Invalid(verify) then (s, Some(Refused))
      else
        var chain := s.chain.WithBlock(block);
        (NodeState(chain, NewBlock(chain.Previous()), false), Some(Ack))
    else if op == OpBalance then
      var addr := AddrOf(p);
      (s, Some(Number(Wrap64(s.chain.Income(addr) + s.pending.Income(addr)))))
    else if op == OpHash then
      (s, Some(Text(s.chain.Hash(IndexOf(p)))))
    else if op == OpLast then
      (s, Some(Number(Wrap32(s.chain.Last()))))
    else if op == OpAddr then
      (s, Some(Text(myaddr)))
    else
      (s, None)
  }

  // ---------------------------------------------------------------------------
  // Lemmas about the dispatch table

  /** Exactly the eight opcodes 1..8 are answered; any other byte gets no reply and changes nothing. */
  lemma UnknownOpcode(s: NodeState, op: uint8, p: Payload, verify: Creature -> bool, myaddr: string)
    requires !Panics(s, op, p, verify)
    ensures Step(s, op, p, verify, myaddr).1.None? <==> !(OpLength <= op <= OpAddr)
    ensures !(OpLength <= op <= OpAddr) ==> Step(s, op, p, verify, myaddr).0 == s
  {
  }

  /** LENGTH, CHAIN, BALANCE, HASH, LAST and ADDR change no state. */
  lemma QueriesReadOnly(s: NodeState, op: uint8, p: Payload, verify: Creature -> bool, myaddr: string)
    requires op in {OpLength, OpChain, OpBalance, OpHash, OpLast, OpAddr}
    ensures Step(s, op, p, verify, myaddr).0 == s
  {
  }

  /** The queries answer with the chain's length, last index, hash at an index, and the balance. */
  lemma QueryAnswers(s: NodeState, p: Payload, verify: Creature -> bool, myaddr: string)
    ensures s.chain.Len() < 0x8000_0000 ==>
              Step(s, OpLength, p, verify, myaddr).1 == Some(Number(|s.chain.blocks|))
    ensures s.chain.Len() < 0x8000_0000 ==>
              Step(s, OpLast, p, verify, myaddr).1 == Some(Number(|s.chain.blocks| - 1))
    ensures p.IndexPayload? && 0 <= p.index < s.chain.Len() ==>
              Step(s, OpHash, p, verify, myaddr).1 == Some(Text(s.chain.blocks[p.index].creature.hash))
    ensures p.AddrPayload? ==>
              Step(s, OpBalance, p, verify, myaddr).1
              == Some(Number(Wrap64(s.chain.Income(p.addr) + s.pending.Income(p.addr))))
  {
  }

  /** A TX whose signature does not verify is refused and changes nothing. */
  lemma TxInvalid(s: NodeState, tx: Transaction, verify: Creature -> bool, myaddr: string)
    requires !verify(tx.creature)
    ensures Step(s, OpTx, TxPayload(tx), verify, myaddr) == (s, Some(Refused))
  {
  }

  /**
   A valid TX on a pending block that is not full is acknowledged and appended at the end of
   the pending block; the chain and the flag are untouched, and the sender's pending balance
   goes down by the amount while a distinct receiver's goes up by it.
   */
  lemma TxValid(s: NodeState, tx: Transaction, verify: Creature -> bool, myaddr: string)
    requires verify(tx.creature) && !s.pending.Full()
    ensures var (s', reply) := Step(s, OpTx, TxPayload(tx), verify, myaddr);
      && reply == Some(Ack)
      && s'.pending.data.transactions == s.pending.data.transactions + [tx]
      && s'.pending.creature == s.pending.creature
      && s'.pending.data.(transactions := []) == s.pending.data.(transactions := [])
      && s'.chain == s.chain && s'.mining == s.mining
      && s'.pending.Income(tx.data.sender) == s.pending.Income(tx.data.sender) - tx.data.amount
      && (tx.data.receiver != tx.data.sender ==>
            s'.pending.Income(tx.data.receiver) == s.pending.Income(tx.data.receiver) + tx.data.amount)
  {
    TransferMovesAmount(s.pending, tx, tx.data.sender);
    TransferMovesAmount(s.pending, tx, tx.data.receiver);
  }

  /** A PROVE whose signature does not verify is refused; chain, pending block and flag stay. */
  lemma ProveInvalid(s: NodeState, block: Block, verify: Creature -> bool, myaddr: string)
    requires !verify(block.creature)
    ensures Step(s, OpProve, BlockPayload(block), verify, myaddr) == (s, Some(Refused))
  {
  }

  /**
   A valid PROVE cancels mining, grows the chain by exactly that block, and replaces the pending
   block (dropping its transactions) with a fresh one linked to the new tip, the proven block.
   */
  lemma ProveValid(s: NodeState, block: Block, verify: Creature -> bool, myaddr: string)
    requires verify(block.creature) && s.chain.Len() < ChainMaxLen
    ensures var (s', reply) := Step(s, OpProve, BlockPayload(block), verify, myaddr);
      && reply == Some(Ack)
      && !s'.mining
      && s'.chain.blocks == s.chain.blocks + [block]
      && s'.chain.creator == s.chain.creator
      && s'.chain.Len() == s.chain.Len() + 1
      && s'.pending == NewBlock(block.creature.hash)
      && s'.pending.Len() == 0 && s'.pending.data.nonce == 0
  {
    PreviousAfterAppend(s.chain, block);
  }

  /** After a valid PROVE the chain balance of every address grows by that block's balance. */
  lemma ProveBalance(s: NodeState, block: Block, verify: Creature -> bool, myaddr: string, addr: string)
    requires verify(block.creature) && s.chain.Len() < ChainMaxLen
    ensures Step(s, OpProve, BlockPayload(block), verify, myaddr).0.chain.Income(addr)
            == s.chain.Income(addr) + block.Income(addr)
  {
    AppendIncome(s.chain, block, addr);
  }

  /**
   A block hash that meets the node's mining difficulty starts with "AA", so (for any hash of
   base64 SHA-256 length) its miner earns a reward of at least 4.
   */
  lemma MinedBlockReward(b: Block)
    requires MiningDifficulty <= |b.creature.hash| <= 62
    requires Meets(b.creature.hash, MiningDifficulty)
    ensures Wrap64(Pow2(LeadingAs(b.creature.hash))) >= 4
  {
    MinedReward(b, MiningDifficulty);
    RewardNoWrap(b);
  }

  /**
   A validly signed transaction sent with opcode PROVE decodes into a block carrying the
   transaction's envelope and Previous, with no transactions, so the chain grows by that block.
   */
  lemma TxSentAsProve(s: NodeState, tx: Transaction, verify: Creature -> bool, myaddr: string)
    requires verify(tx.creature) && s.chain.Len() < ChainMaxLen
    ensures var (s', reply) := Step(s, OpProve, TxPayload(tx), verify, myaddr);
      && reply == Some(Ack)
      && s'.chain.blocks == s.chain.blocks + [Block(tx.creature, BlockData(0, tx.data.previous, "", []))]
      && s'.chain.Previous() == tx.creature.hash
  {
    PreviousAfterAppend(s.chain, BlockOf(TxPayload(tx)));
  }

  // ---------------------------------------------------------------------------
  // The TX handler appends without checking that the pending block has room

  /**
   Two valid TXs fill a fresh pending block, and the TX handler appends a third without
   checking Full, so the third valid TX panics (until the mining goroutine resets the block).
   */
  lemma ThirdTxPanics(s: NodeState, previous: string, tx1: Transaction, tx2: Transaction, tx3: Transaction,
                      verify: Creature -> bool, myaddr: string)
    requires s.pending == NewBlock(previous)
    requires verify(tx1.creature) && verify(tx2.creature) && verify(tx3.creature)
    ensures !Panics(s, OpTx, TxPayload(tx1), verify)
    ensures var s1 := Step(s, OpTx, TxPayload(tx1), verify, myaddr).0;
      !Panics(s1, OpTx, TxPayload(tx2), verify)
    ensures var s1 := Step(s, OpTx, TxPayload(tx1), verify, myaddr).0;
      var s2 := Step(s1, OpTx, TxPayload(tx2), verify, myaddr).0;
      s2.pending.data.transactions == [tx1, tx2] && Panics(s2, OpTx, TxPayload(tx3), verify)
  {
    NewBlockFills(previous, tx1, tx2);
  }

  /** The capacities the ledger's appends enforce. */
  predicate Bounded(s: NodeState) {
    s.pending.Len() <= BlockMaxLen && s.chain.Len() <= ChainMaxLen
  }

  /**
   The dispatch table as evidently intended: a TX for a full pending block, or a PROVE for a
   full chain, is refused with the nil reply like an invalid object, instead of panicking.
   */
  function GuardedStep(s: NodeState, op: uint8, p: Payload, verify: Creature -> bool, myaddr: string)
    : (NodeState, Option<Response>)
  {
    if Panics(s, op, p, verify) then (s, Some(Refused)) else Step(s, op, p, verify, myaddr)
  }

  /**
   The guarded table answers every opcode 1..8, keeps the ledger within its capacities, agrees
   with the table as written wherever that does not panic, and refuses the rest unchanged.
   */
  lemma GuardedStepSafe(s: NodeState, op: uint8, p: Payload, verify: Creature -> bool, myaddr: string)
    requires Bounded(s)
    ensures var (s', reply) := GuardedStep(s, op, p, verify, myaddr);
      && Bounded(s')
      && (reply.Some? <==> OpLength <= op <= OpAddr)
      && (Panics(s, op, p, verify) ==> s' == s && reply == Some(Refused))
      && (!Panics(s, op, p, verify) ==> (s', reply) == Step(s, op, p, verify, myaddr))
  {
    if !Panics(s, op, p, verify) && op == OpProve && !BlockOf(p).creature.Invalid(verify) {
      PreviousAfterAppend(s.chain, BlockOf(p));
    }
  }

  /** With the guard, the third valid TX on a fresh pending block is refused and the block keeps two. */
  lemma GuardedThirdTx(s: NodeState, previous: string, tx1: Transaction, tx2: Transaction, tx3: Transaction,
                       verify: Creature -> bool, myaddr: string)
    requires s.pending == NewBlock(previous)
    requires verify(tx1.creature) && verify(tx2.creature) && verify(tx3.creature)
    ensures var (s1, r1) := GuardedStep(s, OpTx, TxPayload(tx1), verify, myaddr);
            var (s2, r2) := GuardedStep(s1, OpTx, TxPayload(tx2), verify, myaddr);
            var (s3, r3) := GuardedStep(s2, OpTx, TxPayload(tx3), verify, myaddr);
      && r1 == Some(Ack) && r2 == Some(Ack) && r3 == Some(Refused)
      && s3 == s2 && s3.pending.data.transactions == [tx1, tx2]
  {
    ThirdTxPanics(s, previous, tx1, tx2, tx3, verify, myaddr);
  }

  // ---------------------------------------------------------------------------
  // The connection handler reads the opcode as request[0] without checking for an empty read

  /**
   The requests on which the connection handler of Serve panics: an empty read (request[0] is
   out of range), or an append beyond capacity. `p` is the decoded body request[1..].
   */
  predicate RequestPanics(s: NodeState, request: seq<uint8>, p: Payload, verify: Creature -> bool) {
    |request| == 0 || Panics(s, request[0], p, verify)
  }

  /** The connection handler as written: dispatch on the first byte of the request. */
  function Handle(s: NodeState, request: seq<uint8>, p: Payload, verify: Creature -> bool, myaddr: string)
    : (NodeState, Option<Response>)
    requires !RequestPanics(s, request, p, verify)
  {
    Step(s, request[0], p, verify, myaddr)
  }

  /** A peer that connects and sends nothing makes the handler panic, whatever the node's state. */
  lemma EmptyRequestPanics(s: NodeState, p: Payload, verify: Creature -> bool)
    ensures RequestPanics(s, [], p, verify)
    ensures forall op: uint8 :: RequestPanics(s, [op], p, verify) <==> Panics(s, op, p, verify)
  {
  }

  /** The connection handler as evidently intended: an empty request gets no reply. */
  function GuardedHandle(s: NodeState, request: seq<uint8>, p: Payload, verify: Creature -> bool, myaddr: string)
    : (NodeState, Option<Response>)
  {
    if |request| == 0 then (s, None) else GuardedStep(s, request[0], p, verify, myaddr)
  }

  /**
   The guarded handler serves every request: an empty one is ignored and changes nothing, a
   non-empty one agrees with the handler as written whenever that does not panic, and the
   ledger stays within its capacities.
   */
  lemma GuardedHandleSafe(s: NodeState, request: seq<uint8>, p: Payload, verify: Creature -> bool, myaddr: string)
    requires Bounded(s)
    ensures var (s', reply) := GuardedHandle(s, request, p, verify, myaddr);
      && Bounded(s')
      && (|request| == 0 ==> s' == s && reply.None?)
      && (!RequestPanics(s, request, p, verify) ==> (s', reply) == Handle(s, request, p, verify, myaddr))
  {
    if |request| > 0 {
      GuardedStepSafe(s, request[0], p, verify, myaddr);
    }
  }

  // ---------------------------------------------------------------------------
  // The server

  /**
   One node's server: the state the handler closures of Serve share. The chain and the pending
   block are pointers handed in by the caller; the mining flag belongs to the server.
   */
  class Node {
    const myaddr: string
    const verify: Creature -> bool
    const chain: ChainRef
    const myblock: BlockRef
    const mining: Flag

    constructor (myaddr: string, verify: Creature -> bool, chain: ChainRef, myblock: BlockRef)
      ensures this.myaddr == myaddr && this.verify == verify
      ensures this.chain == chain && this.myblock == myblock
      ensures fresh(mining) && !mining.raised
    {
      this.myaddr := myaddr;
      this.verify := verify;
      this.chain := chain;
      this.myblock := myblock;
      this.mining := new Flag(false);
    }

    function State(): NodeState
      reads chain, myblock, mining
    {
      NodeState(chain.value, myblock.value, mining.raised)
    }

    method HandleLength() returns (r: Response)
      ensures r == Number(Wrap32(|chain.value.blocks|))
    {
      r := Number(Wrap32(chain.value.Len()));
    }

    method HandleChain() returns (r: Response)
      ensures r == WholeChain(chain.value)
    {
      r := WholeChain(chain.value);
    }

    method HandleTx(tx: Transaction) returns (r: Response)
      requires !tx.creature.Invalid(verify) ==> myblock.value.Len() < BlockMaxLen
      modifies myblock
      ensures r == if tx.creature.Invalid(verify) then Refused else Ack
      ensures myblock.value == if tx.creature.Invalid(verify) then old(myblock.value)
                               else old(myblock.value).WithTx(tx)
    {
      if tx.creature.Invalid(verify) {
        return Refused;
      }
      myblock.Append(tx);
      // When the block is now full, Go starts mining it in a goroutine; that is not modelled.
      r := Ack;
    }

    method HandleProve(block: Block) returns (r: Response)
      requires !block.creature.Invalid(verify) ==> chain.value.Len() < ChainMaxLen
      modifies chain, myblock, mining
      ensures r == if block.creature.Invalid(verify) then Refused else Ack
      ensures block.creature.Invalid(verify) ==> unchanged(chain, myblock, mining)
      ensures !block.creature.Invalid(verify) ==>
                && !mining.raised
                && chain.value == old(chain.value).WithBlock(block)
                && myblock.value == NewBlock(chain.value.Previous())
    {
      if block.creature.Invalid(verify) {
        return Refused;
      }
      mining.raised := false;
      chain.Append(block);
      myblock.value := NewBlock(chain.value.Previous());
      r := Ack;
    }

    method HandleBalance(addr: string) returns (r: Response)
      ensures r == Number(Wrap64(chain.value.Income(addr) + myblock.value.Income(addr)))
    {
      var c := chain.value.Balance(addr);
      var b := myblock.value.Balance(addr);
      WrapAdd64(chain.value.Income(addr), myblock.value.Income(addr));
      WrapAdd64(chain.value.Income(addr), Wrap64(myblock.value.Income(addr)));
      r := Number(Wrap64(c as int + b));
    }

    method HandleHash(index: int32) returns (r: Response)
      ensures r == Text(if 0 <= index < |chain.value.blocks| then chain.value.blocks[index].creature.hash
                        else Utility.HashNull)
    {
      r := Text(chain.value.Hash(index));
    }

    method HandleLast() returns (r: Response)
      ensures r == Number(Wrap32(|chain.value.blocks| - 1))
    {
      r := Number(Wrap32(chain.value.Last()));
    }

    method HandleAddr() returns (r: Response)
      ensures r == Text(myaddr)
    {
      r := Text(myaddr);
    }

    /** Answer one request: look the opcode up in the table, or send nothing back. */
    method Serve(op: uint8, data: Payload) returns (reply: Option<Response>)
      requires !Panics(State(), op, data, verify)
      modifies chain, myblock, mining
      ensures (State(), reply) == Step(old(State()), op, data, verify, myaddr)
    {
      var r: Response;
      if op == OpLength {
        r := HandleLength();
      } else if op == OpChain {
        r := HandleChain();
      } else if op == OpTx {
        r := HandleTx(TxOf(data));
      } else if op == OpProve {
        r := HandleProve(BlockOf(data));
      } else if op == OpBalance {
        r := HandleBalance(AddrOf(data));
      } else if op == OpHash {
        r := HandleHash(IndexOf(data));
      } else if op == OpLast {
        r := HandleLast();
      } else if op == OpAddr {
        r := HandleAddr();
      } else {
        return None;
      }
      reply := Some(r);
    }
  }

  // ---------------------------------------------------------------------------
  // Choosing a peer to synchronise from

  /**
   The peer that Choose settles on, as the code is written: the first address to start with,
   then every later address whose reported length is positive replaces it, because the
   running maximum `lmax` stays 0.
   */
  function Chosen(addresses: seq<string>, length: string -> int): string {
    if |addresses| == 0 then ""
    else if |addresses| == 1 || length(addresses[|addresses| - 1]) > 0 then addresses[|addresses| - 1]
    else Chosen(addresses[..|addresses| - 1], length)
  }

  /** Go's Choose, with each peer's reported LENGTH given by `length`. */
  method Choose(addresses: seq<string>, length: string -> int) returns (best: string)
    ensures best == Chosen(addresses, length)
  {
    best := "";
    if |addresses| != 0 {
      best := addresses[0];
    }
    var lmax := 0;
    for i := 0 to |addresses|
      invariant i == 0 ==> best == (if |addresses| != 0 then addresses[0] else "")
      invariant i > 0 ==> best == Chosen(addresses[..i], length)
    {
      assert addresses[..i + 1][..i] == addresses[..i];
      var l := length(addresses[i]);
      if l > lmax {
        best := addresses[i];
      }
    }
    assert addresses[..|addresses|] == addresses;
  }

  /** Choose returns an address from the list, or "" when there is none. */
  lemma {:induction false} ChosenMember(addresses: seq<string>, length: string -> int)
    ensures |addresses| == 0 ==> Chosen(addresses, length) == ""
    ensures |addresses| > 0 ==> Chosen(addresses, length) in addresses
  {
    if |addresses| > 1 {
      ChosenMember(addresses[..|addresses| - 1], length);
    }
  }

  /** Choose returns the last address whose reported length is positive. */
  lemma {:induction false} ChosenIsLastPositive(addresses: seq<string>, length: string -> int, k: nat)
    requires k < |addresses| && length(addresses[k]) > 0
    requires forall j :: k < j < |addresses| ==> length(addresses[j]) <= 0
    ensures Chosen(addresses, length) == addresses[k]
  {
    if k < |addresses| - 1 {
      ChosenIsLastPositive(addresses[..|addresses| - 1], length, k);
    }
  }

  /** When no peer reports a positive length, Choose returns the first address. */
  lemma {:induction false} ChosenWhenNonePositive(addresses: seq<string>, length: string -> int)
    requires |addresses| > 0
    requires forall j :: 0 <= j < |addresses| ==> length(addresses[j]) <= 0
    ensures Chosen(addresses, length) == addresses[0]
  {
    if |addresses| > 1 {
      ChosenWhenNonePositive(addresses[..|addresses| - 1], length);
    }
  }

  /** Two peers reporting 5 and then 3 blocks: Choose picks the shorter chain. */
  lemma ChooseNotLongest(length: string -> int)
    requires length("a") == 5 && length("b") == 3
    ensures Chosen(["a", "b"], length) == "b"
    ensures LongestFrom("a", ["a", "b"], length).0 == "a"
  {
    assert ["a", "b"][..1] == ["a"];
    assert ["a", "b"][..0] == [];
  }

  /**
   The evident intent: scan as Choose does but raise `lmax` with each improvement. The result is
   the running best address and its length; `init` is the address chosen before the scan.
   */
  function LongestFrom(init: string, addresses: seq<string>, length: string -> int): (string, int) {
    if |addresses| == 0 then (init, 0)
    else
      var (best, lmax) := LongestFrom(init, addresses[..|addresses| - 1], length);
      var last := addresses[|addresses| - 1];
      if length(last) > lmax then (last, length(last)) else (best, lmax)
  }

  /** Choose with `lmax` kept up to date: the peer with the strictly greatest reported length. */
  method ChooseLongest(addresses: seq<string>, length: string -> int) returns (best: string)
    ensures best == LongestFrom(if |addresses| != 0 then addresses[0] else "", addresses, length).0
  {
    best := "";
    if |addresses| != 0 {
      best := addresses[0];
    }
    ghost var init := best;
    var lmax := 0;
    for i := 0 to |addresses|
      invariant (best, lmax) == LongestFrom(init, addresses[..i], length)
    {
      assert addresses[..i + 1][..i] == addresses[..i];
      var l := length(addresses[i]);
      if l > lmax {
        best, lmax := addresses[i], l;
      }
    }
    assert addresses[..|addresses|] == addresses;
  }

  /**
   The corrected scan's length bounds every reported length and is never negative; when no
   length is positive it keeps the initial address.
   */
  lemma {:induction false} LongestBound(init: string, addresses: seq<string>, length: string -> int)
    ensures var (best, lmax) := LongestFrom(init, addresses, length);
      && lmax >= 0
      && (forall j :: 0 <= j < |addresses| ==> length(addresses[j]) <= lmax)
      && (lmax == 0 ==> best == init)
  {
    if |addresses| > 0 {
      var prefix := addresses[..|addresses| - 1];
      LongestBound(init, prefix, length);
      assert forall j :: 0 <= j < |addresses| - 1 ==> addresses[j] == prefix[j];
    }
  }

  /** A positive length of the corrected scan belongs to its address, the first one that long. */
  lemma {:induction false} LongestWitness(init: string, addresses: seq<string>, length: string -> int)
    ensures var (best, lmax) := LongestFrom(init, addresses, length);
      lmax > 0 ==> exists k :: 0 <= k < |addresses| && addresses[k] == best && length(best) == lmax
                               && forall j :: 0 <= j < k ==> length(addresses[j]) < lmax
  {
    if |addresses| > 0 {
      var prefix := addresses[..|addresses| - 1];
      LongestBound(init, prefix, length);
      LongestWitness(init, prefix, length);
      var (best, lmax) := LongestFrom(init, prefix, length);
      var last := addresses[|addresses| - 1];
      assert forall j :: 0 <= j < |addresses| - 1 ==> addresses[j] == prefix[j];
      if length(last) > lmax {
        var k := |addresses| - 1;
        assert addresses[k] == last && forall j :: 0 <= j < k ==> length(addresses[j]) < length(last);
      } else if lmax > 0 {
        var k :| 0 <= k < |prefix| && prefix[k] == best && length(best) == lmax
                 && forall j :: 0 <= j < k ==> length(prefix[j]) < lmax;
        assert addresses[k] == prefix[k];
      }
    }
  }

  /**
   The corrected scan returns an address whose length is at least every reported length (or the
   first address when none is positive), and the earliest one among equals.
   */
  lemma LongestIsMaximal(init: string, addresses: seq<string>, length: string -> int)
    ensures var (best, lmax) := LongestFrom(init, addresses, length);
      && lmax >= 0
      && (forall j :: 0 <= j < |addresses| ==> length(addresses[j]) <= lmax)
      && (lmax == 0 ==> best == init)
      && (lmax > 0 ==> exists k :: 0 <= k < |addresses| && addresses[k] == best && length(best) == lmax
                                   && forall j :: 0 <= j < k ==> length(addresses[j]) < lmax)
  {
    LongestBound(init, addresses, length);
    LongestWitness(init, addresses, length);
  }
}
