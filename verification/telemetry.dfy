/**
 The body of the telemetry generator's loop: one tick classifies one reading
 per shipment of the roster and appends an "ALERT" block for each anomalous
 one, in roster order. Readings are inputs; sampling them is not modelled.
 */
module Telemetry {
  import opened Encoding
  import opened Ledger

  /** What the tick uses of one sampled reading: the temperature, the tamper
      flag, the UTC ISO-8601 time put in the alert payload, and the epoch-seconds
      clock reading `add_block` stamps the alert block with. */
  datatype Reading = Reading(temp: real, tamper: bool, isoTime: string, now: real)

  /** Cold-chain bounds; a reading exactly on a bound is normal. */
  const TempLow: real := 2.0
  const TempHigh: real := 30.0

  /** The anomaly rule: tampered, or strictly outside [TempLow, TempHigh]. */
  predicate IsAnomalous(r: Reading)
  {
    r.tamper || r.temp < TempLow || r.temp > TempHigh
  }

  /** A reading is normal exactly when it is untampered and its temperature
      lies in the closed interval [2, 30]; both bounds themselves are normal. */
  lemma NormalIffUntamperedInRange(r: Reading)
    ensures !IsAnomalous(r) <==> !r.tamper && 2.0 <= r.temp <= 30.0
    ensures !r.tamper && (r.temp == 2.0 || r.temp == 30.0) ==> !IsAnomalous(r)
  {
  }

  /** `{"shipment_id": sid, "temp": temp, "tamper": tamper, "ts": iso}`. */
  function AlertPayload(sid: string, r: Reading): Json
  {
    JObject(map["shipment_id" := JStr(sid), "temp" := JNum(r.temp), "tamper" := JBool(r.tamper), "ts" := JStr(r.isoTime)])
  }

  /** The append request a tick issues for an anomalous reading of shipment `sid`. */
  function AlertFor(sid: string, r: Reading): Pending
  {
    Pending("ALERT", AlertPayload(sid, r), r.now)
  }

  /** The positions of the anomalous readings, ascending: exactly those
      positions, each once, in order. */
  function AnomalousPositions(readings: seq<Reading>): (idx: seq<nat>)
    ensures forall j :: 0 <= j < |idx| ==> idx[j] < |readings|
    ensures forall j, k :: 0 <= j < k < |idx| ==> idx[j] < idx[k]
    ensures forall k :: 0 <= k < |readings| ==> (IsAnomalous(readings[k]) <==> k in idx)
    decreases |readings|
  {
    if |readings| == 0 then []
    else
      var n := |readings| - 1;
      AnomalousPositions(readings[..n]) + (if IsAnomalous(readings[n]) then [n] else [])
  }

  /** The append requests of one tick, in roster order. */
  function TickAlerts(roster: seq<string>, readings: seq<Reading>): seq<Pending>
    requires |roster| == |readings|
    decreases |readings|
  {
    if |readings| == 0 then []
    else
      var n := |readings| - 1;
      TickAlerts(roster[..n], readings[..n])
        + (if IsAnomalous(readings[n]) then [AlertFor(roster[n], readings[n])] else [])
  }

  /** A tick requests exactly one alert per anomalous reading, in roster order,
      each naming the shipment the reading belongs to. */
  lemma {:induction false} TickAlertsFollowAnomalies(roster: seq<string>, readings: seq<Reading>)
    requires |roster| == |readings|
    ensures var idx := AnomalousPositions(readings);
      var alerts := TickAlerts(roster, readings);
      && |alerts| == |idx|
      && forall j :: 0 <= j < |alerts| ==> alerts[j] == AlertFor(roster[idx[j]], readings[idx[j]])
    decreases |readings|
  {
    if |readings| > 0 {
      var n := |readings| - 1;
      TickAlertsFollowAnomalies(roster[..n], readings[..n]);
      var idx0 := AnomalousPositions(readings[..n]);
      forall j | 0 <= j < |idx0|
        ensures roster[..n][idx0[j]] == roster[idx0[j]] && readings[..n][idx0[j]] == readings[idx0[j]]
      {
      }
    }
  }

  /** Readings without an anomaly request no alert, and conversely. */
  lemma NoAnomalyNoAlerts(roster: seq<string>, readings: seq<Reading>)
    requires |roster| == |readings|
    ensures (forall k :: 0 <= k < |readings| ==> !IsAnomalous(readings[k])) <==> TickAlerts(roster, readings) == []
  {
  }

  /** A tick with no anomalous reading leaves the ledger untouched; an absent
      ledger stays absent. */
  lemma QuietTickIsNoOp(p: Primitives, s: Store, roster: seq<string>, readings: seq<Reading>, genesisNow: real)
    requires |readings| == |roster|
    requires forall k :: 0 <= k < |readings| ==> !IsAnomalous(readings[k])
    ensures AppendAll(p, s, TickAlerts(roster, readings), genesisNow) == s
  {
    NoAnomalyNoAlerts(roster, readings);
  }

  /** A tick with an anomalous reading extends the old chain (bootstrapped with
      genesis if needed) by one ALERT block per anomalous shipment, in roster
      order, each carrying that shipment's alert payload. */
  lemma AlertTickExtendsChain(p: Primitives, s: Store, roster: seq<string>, readings: seq<Reading>, genesisNow: real, k: nat)
    requires |readings| == |roster| && k < |readings| && IsAnomalous(readings[k])
    ensures AppendAll(p, s, TickAlerts(roster, readings), genesisNow).Present?
    ensures ExtendsWith(InitLedger(p, s, genesisNow).chain,
                        AppendAll(p, s, TickAlerts(roster, readings), genesisNow).chain,
                        TickAlerts(roster, readings))
  {
    NoAnomalyNoAlerts(roster, readings);
    AppendAllExtends(p, s, TickAlerts(roster, readings), genesisNow);
  }

  /** A tick keeps a valid ledger valid. */
  lemma TickPreservesValid(p: Primitives, s: Store, roster: seq<string>, readings: seq<Reading>, genesisNow: real)
    requires |readings| == |roster| && ValidStore(p, s)
    ensures ValidStore(p, AppendAll(p, s, TickAlerts(roster, readings), genesisNow))
  {
    AppendAllPreservesValid(p, s, TickAlerts(roster, readings), genesisNow);
  }

  /** One pass of the loop body over the roster: `readings[k]` is the reading
      sampled for `roster[k]`; `genesisNow` is the clock reading used if the
      first alert has to create the ledger. The result is the ledger after
      appending the tick's alerts one after another. */
  method RunTick(p: Primitives, s: Store, roster: seq<string>, readings: seq<Reading>, genesisNow: real)
    returns (r: Store)
    requires |readings| == |roster|
    ensures r == AppendAll(p, s, TickAlerts(roster, readings), genesisNow)
  {
    r := s;
    var i := 0;
    while i < |roster|
      invariant 0 <= i <= |roster|
      invariant r == AppendAll(p, s, TickAlerts(roster[..i], readings[..i]), genesisNow)
    {
      var reading := readings[i];
      ghost var before := TickAlerts(roster[..i], readings[..i]);
      assert roster[..i + 1][..i] == roster[..i];
      assert readings[..i + 1][..i] == readings[..i];
      if IsAnomalous(reading) {
        var appended := AddBlock(p, r, "ALERT", AlertPayload(roster[i], reading), genesisNow, reading.now);
        r := Present(appended.chain);
        assert (before + [AlertFor(roster[i], reading)])[..|before|] == before;
      } else {
        assert TickAlerts(roster[..i + 1], readings[..i + 1]) == before;
      }
      i := i + 1;
    }
    assert roster[..i] == roster;
    assert readings[..i] == readings;
  }
}
