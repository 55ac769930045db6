/**
 The tamper-evident ledger: a hash-chained list of blocks persisted as one
 document. `InitLedger` creates the genesis block when no document exists,
 `AddBlock` derives one block from the current tail and appends it, and
 `ReadLedger` returns the newest blocks. The document is modelled in memory as a
 `Store`; every append is one atomic step.
 */
module Ledger {
  import opened Encoding
  import opened PySlice

  /** One ledger record, with the five fields the document stores. */
  datatype Block = Block(index: int, timestamp: real, prevHash: string, data: Json, hash: string)

  type Chain = seq<Block>

  /** The modelled writers never store an empty list. */
  type NonEmptyChain = c: Chain | |c| > 0 witness [Block(0, 0.0, "", JNull, "")]

  /** The ledger document: absent, or present with its chain. */
  datatype Store = Absent | Present(chain: NonEmptyChain)

  /** Sentinel predecessor hash of the genesis block: 64 '0' characters. */
  const ZeroHash: string :=
    "0000000000000000" + "0000000000000000" + "0000000000000000" + "0000000000000000"

  /** The payload of the genesis block, `{"genesis": true}`. */
  const GenesisData: Json := JObject(map["genesis" := JBool(true)])

  /** The payload of every later block, `{"event": eventType, "payload": payload}`. */
  function EventData(eventType: string, payload: Json): Json
  {
    JObject(map["event" := JStr(eventType), "payload" := payload])
  }

  /** Genesis rule: the digest covers the encoded data only. */
  function GenesisHash(p: Primitives, data: Json): string
  {
    p.H(p.Enc(data))
  }

  /** The string a non-genesis digest is computed over: encoded data, then
      the timestamp, then the predecessor's hash. */
  function LinkedPreimage(p: Primitives, data: Json, timestamp: real, prevHash: string): string
  {
    p.Enc(data) + p.TsStr(timestamp) + prevHash
  }

  /** General rule: the digest of the linked preimage. */
  function LinkedHash(p: Primitives, data: Json, timestamp: real, prevHash: string): string
  {
    p.H(LinkedPreimage(p, data, timestamp, prevHash))
  }

  /** The digest block `i` of `c` must carry, by its position. */
  function ExpectedHash(p: Primitives, c: Chain, i: nat): string
    requires i < |c|
  {
    if i == 0 then GenesisHash(p, c[0].data)
    else LinkedHash(p, c[i].data, c[i].timestamp, c[i].prevHash)
  }

  function Tail(c: NonEmptyChain): Block
  {
    c[|c| - 1]
  }

  // ---------------------------------------------------------------------------
  // Chain invariants

  /** Block `i` carries index `i`. */
  predicate Contiguous(c: Chain)
  {
    forall i :: 0 <= i < |c| ==> c[i].index == i
  }

  /** Every block after the first names its predecessor's hash. */
  predicate Linked(c: Chain)
  {
    forall i :: 0 < i < |c| ==> c[i].prevHash == c[i - 1].hash
  }

  /** Every stored hash is the one recomputed from the block's own fields. */
  predicate HashCorrect(p: Primitives, c: Chain)
  {
    forall i :: 0 <= i < |c| ==> c[i].hash == ExpectedHash(p, c, i)
  }

  /** The chain starts with a genesis block: zero predecessor and genesis data. */
  predicate GenesisFirst(c: Chain)
  {
    |c| > 0 && c[0].prevHash == ZeroHash && c[0].data == GenesisData
  }

  predicate ValidChain(p: Primitives, c: Chain)
  {
    GenesisFirst(c) && Contiguous(c) && Linked(c) && HashCorrect(p, c)
  }

  /** An absent document is trivially valid: the first write creates genesis. */
  predicate ValidStore(p: Primitives, s: Store)
  {
    s.Absent? || ValidChain(p, s.chain)
  }

  // ---------------------------------------------------------------------------
  // Operations

  /** `init_ledger`: create the one-block genesis chain if no document exists,
      otherwise leave the document exactly as it is (even if it is invalid). */
  function InitLedger(p: Primitives, s: Store, now: real): (r: Store)
    ensures r.Present?
    ensures s.Present? ==> r == s
    ensures s.Absent? ==> |r.chain| == 1 && ValidChain(p, r.chain) && r.chain[0].timestamp == now
  {
    if s.Present? then s
    else Present([Block(0, now, ZeroHash, GenesisData, GenesisHash(p, GenesisData))])
  }

  /** What `add_block` returns besides the new document: the appended block. */
  datatype Appended = Appended(chain: NonEmptyChain, block: Block)

  /** `add_block(eventType, payload)`: bootstrap genesis if needed (at time
      `genesisNow`), then append one block derived from the tail (at time `now`).
      The new document is `Present(r.chain)`; `r.block` is returned to the caller. */
  function AddBlock(p: Primitives, s: Store, eventType: string, payload: Json, genesisNow: real, now: real): (r: Appended)
    // append-only: the old chain is an unchanged prefix and the block is the new tail
    ensures r.chain == InitLedger(p, s, genesisNow).chain + [r.block]
    ensures s.Present? ==> |r.chain| == |s.chain| + 1 && r.chain[..|s.chain|] == s.chain
    ensures s.Absent? ==> |r.chain| == 2 && r.block.prevHash == GenesisHash(p, GenesisData)
    // derived from the tail it was appended to
    ensures r.block.index == r.chain[|r.chain| - 2].index + 1
    ensures r.block.prevHash == r.chain[|r.chain| - 2].hash
    // contents and digest
    ensures r.block.data == EventData(eventType, payload) && r.block.timestamp == now
    ensures r.block.hash == LinkedHash(p, r.block.data, now, r.block.prevHash)
    // the central invariant: a valid document stays valid
    ensures ValidStore(p, s) ==> ValidChain(p, r.chain)
  {
    var chain := InitLedger(p, s, genesisNow).chain;
    var last := Tail(chain);
    var data := EventData(eventType, payload);
    var block := Block(last.index + 1, now, last.hash, data, LinkedHash(p, data, now, last.hash));
    Appended(chain + [block], block)
  }

  /** `api_ledger(limit)`: no document reads as the empty chain; otherwise the
      result is Python's `chain[-limit:]`. */
  function ReadLedger(s: Store, limit: int): (r: Chain)
    ensures s.Absent? ==> r == []
    ensures s.Present? && limit >= 1 ==>
      |r| == Min(limit, |s.chain|) && r == s.chain[|s.chain| - |r|..]
    ensures s.Present? && limit == 0 ==> r == s.chain
    ensures s.Present? && limit < 0 ==> r == s.chain[Min(-limit, |s.chain|)..]
  {
    if s.Absent? then [] else SliceFrom(s.chain, -limit)
  }

  /** The read the endpoint evidently intends: at most `limit` newest blocks,
      none for a limit below one. */
  function ReadNewest(s: Store, limit: int): (r: Chain)
    ensures |r| <= Max(limit, 0)
    ensures s.Absent? ==> r == []
    ensures s.Present? ==> |r| == Min(Max(limit, 0), |s.chain|) && r == s.chain[|s.chain| - |r|..]
  {
    if s.Absent? || limit <= 0 then [] else SliceFrom(s.chain, -limit)
  }

  /** With limit 0 the endpoint returns every block, more than the limit asks for. */
  lemma ZeroLimitReadsWholeChain(p: Primitives, t0: real, t1: real)
    ensures var s := Present(AddBlock(p, Absent, "E", JNull, t0, t1).chain);
      |ReadLedger(s, 0)| == 2 && |ReadNewest(s, 0)| == 0
  {
  }

  /** For a valid document and a positive limit, the window read is the newest
      blocks in chain order: consecutive indices ending at the tail, each linked
      to the one before it. */
  lemma ReadWindowIsNewest(p: Primitives, s: Store, limit: int)
    requires s.Present? && ValidChain(p, s.chain) && limit >= 1
    ensures var r := ReadLedger(s, limit);
      && |r| > 0
      && r[|r| - 1] == Tail(s.chain)
      && (forall j :: 0 <= j < |r| ==> r[j].index == |s.chain| - |r| + j)
      && (forall j :: 0 < j < |r| ==> r[j].prevHash == r[j - 1].hash)
  {
  }

  // ---------------------------------------------------------------------------
  // Successive appends

  /** An append request: event type, payload, and the clock reading `add_block` takes. */
  datatype Pending = Pending(eventType: string, payload: Json, now: real)

  /** Appending `events` one after another, oldest first. */
  function AppendAll(p: Primitives, s: Store, events: seq<Pending>, genesisNow: real): Store
    decreases |events|
  {
    if |events| == 0 then s
    else
      var e := events[|events| - 1];
      Present(AddBlock(p, AppendAll(p, s, events[..|events| - 1], genesisNow), e.eventType, e.payload, genesisNow, e.now).chain)
  }

  /** `c` is `base` followed by one block per request of `events`, in order,
      each carrying that request's event data and clock reading. */
  predicate ExtendsWith(base: Chain, c: Chain, events: seq<Pending>)
  {
    && |c| == |base| + |events|
    && c[..|base|] == base
    && (forall j :: 0 <= j < |events| ==>
          c[|base| + j].data == EventData(events[j].eventType, events[j].payload)
          && c[|base| + j].timestamp == events[j].now)
  }

  /** One more append extends the run by the block for that request. */
  lemma AddBlockExtends(p: Primitives, prev: Store, base: Chain, front: seq<Pending>, e: Pending, genesisNow: real)
    requires prev.Present? && ExtendsWith(base, prev.chain, front)
    ensures ExtendsWith(base, AddBlock(p, prev, e.eventType, e.payload, genesisNow, e.now).chain, front + [e])
  {
  }

  /** A run of appends keeps the old chain as a prefix and adds exactly one
      block per request, in request order. No requests leave the document
      untouched, absent included. */
  lemma {:induction false} AppendAllExtends(p: Primitives, s: Store, events: seq<Pending>, genesisNow: real)
    ensures |events| == 0 ==> AppendAll(p, s, events, genesisNow) == s
    ensures |events| > 0 ==>
      && AppendAll(p, s, events, genesisNow).Present?
      && ExtendsWith(InitLedger(p, s, genesisNow).chain, AppendAll(p, s, events, genesisNow).chain, events)
    decreases |events|
  {
    if |events| > 0 {
      var n := |events|;
      var front := events[..n - 1];
      var e := events[n - 1];
      var base := InitLedger(p, s, genesisNow).chain;
      var prev := AppendAll(p, s, front, genesisNow);
      assert events == front + [e];
      if n == 1 {
        assert prev == s;
        assert ExtendsWith(base, InitLedger(p, prev, genesisNow).chain, front);
        AddBlockExtends(p, InitLedger(p, prev, genesisNow), base, front, e, genesisNow);
      } else {
        AppendAllExtends(p, s, front, genesisNow);
        AddBlockExtends(p, prev, base, front, e, genesisNow);
      }
    }
  }

  /** A run of appends preserves the chain invariants. */
  lemma {:induction false} AppendAllPreservesValid(p: Primitives, s: Store, events: seq<Pending>, genesisNow: real)
    requires ValidStore(p, s)
    ensures ValidStore(p, AppendAll(p, s, events, genesisNow))
    decreases |events|
  {
    if |events| > 0 {
      AppendAllPreservesValid(p, s, events[..|events| - 1], genesisNow);
    }
  }

  // ---------------------------------------------------------------------------
  // Tamper evidence

  lemma SuffixCancels(a: string, b: string, t: string)
    requires a + t == b + t
    ensures a == b
  {
    assert |a| == |b|;
    assert a == (a + t)[..|a|];
    assert b == (b + t)[..|b|];
  }

  /** Neither the encoder nor the hash collides on the two data values
      placed at the same timestamp and predecessor. */
  ghost predicate DigestSeparates(p: Primitives, d1: Json, d2: Json, timestamp: real, prevHash: string)
  {
    && NoEncodingCollision(p, d1, d2)
    && NoHashCollision(p, LinkedPreimage(p, d1, timestamp, prevHash), LinkedPreimage(p, d2, timestamp, prevHash))
  }

  /** Unless the encoder or the hash collides on these two values, the linked
      digest pins down the data it was computed from: a changed payload
      changes the digest. */
  lemma LinkedHashDeterminesData(p: Primitives, d1: Json, d2: Json, timestamp: real, prevHash: string)
    requires DigestSeparates(p, d1, d2, timestamp, prevHash)
    requires LinkedHash(p, d1, timestamp, prevHash) == LinkedHash(p, d2, timestamp, prevHash)
    ensures d1 == d2
  {
    SuffixCancels(p.Enc(d1) + p.TsStr(timestamp), p.Enc(d2) + p.TsStr(timestamp), prevHash);
    SuffixCancels(p.Enc(d1), p.Enc(d2), p.TsStr(timestamp));
  }

  /** Rewriting the data of a stored block, keeping its stored hash, is
      detected: the chain is no longer valid. */
  lemma EditedDataBreaksChain(p: Primitives, c: Chain, k: nat, d: Json)
    requires ValidChain(p, c) && k < |c| && d != c[k].data
    requires DigestSeparates(p, d, c[k].data, c[k].timestamp, c[k].prevHash)
    ensures !ValidChain(p, c[k := c[k].(data := d)])
  {
    var edited := c[k := c[k].(data := d)];
    if k > 0 && ValidChain(p, edited) {
      assert edited[k].hash == ExpectedHash(p, edited, k);
      assert c[k].hash == ExpectedHash(p, c, k);
      LinkedHashDeterminesData(p, d, c[k].data, c[k].timestamp, c[k].prevHash);
    }
  }

  /** Rewriting the data of a non-tail block AND recomputing its hash is still
      detected: the successor's stored link no longer matches. */
  lemma RehashedEditBreaksLink(p: Primitives, c: Chain, k: nat, d: Json)
    requires ValidChain(p, c) && 0 < k < |c| - 1 && d != c[k].data
    requires DigestSeparates(p, d, c[k].data, c[k].timestamp, c[k].prevHash)
    ensures var b := c[k].(data := d);
      !ValidChain(p, c[k := b.(hash := LinkedHash(p, d, b.timestamp, b.prevHash))])
  {
    var b := c[k].(data := d);
    var rehashed := c[k := b.(hash := LinkedHash(p, d, b.timestamp, b.prevHash))];
    if ValidChain(p, rehashed) {
      assert rehashed[k + 1] == c[k + 1];
      assert rehashed[k + 1].prevHash == rehashed[k].hash;
      assert c[k + 1].prevHash == c[k].hash;
      assert c[k].hash == ExpectedHash(p, c, k);
      LinkedHashDeterminesData(p, d, c[k].data, c[k].timestamp, c[k].prevHash);
    }
  }

  /** The limit of tamper evidence: the tail has no successor, so rewriting its
      data and recomputing its hash leaves a chain that is still valid. */
  lemma RehashedTailGoesUndetected(p: Primitives, c: Chain, d: Json)
    requires ValidChain(p, c) && |c| >= 2
    ensures var k := |c| - 1;
      var b := c[k].(data := d);
      ValidChain(p, c[k := b.(hash := LinkedHash(p, d, b.timestamp, b.prevHash))])
  {
  }
}
