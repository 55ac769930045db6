# PharmaChain ledger core, modelled in Dafny

This project models the tamper-evident event ledger of the PharmaChain demo
service (`app.py`) and the two pieces of logic that feed it:

- **Ledger** (`ledger.dfy`): the hash-chained list of blocks kept in
  `ledger.json`. `init_ledger` writes the genesis block when no ledger exists.
  `add_block` derives one block from the current tail and appends it.
  `api_ledger` returns `chain[-limit:]`: for limit >= 1, the newest `limit`
  blocks.
  The document is an in-memory `Store` (`Absent` or `Present(chain)`). SHA-256,
  `json.dumps(sort_keys=True)` and `str(float)` are uninterpreted functions
  carried in a `Primitives` record (`encoding.dfy`). The chain invariants are
  contiguity, linkage, hash correctness and a genesis-first rule. They are proved
  to hold after every append and after any run of appends. Assume the encoder
  and the hash do not collide on the old and new data. Then rewriting a
  block's data while keeping its hash is detected. Re-hashing a non-tail
  block is also detected, because its successor's link breaks. A re-hashed
  tail is not detected, and neither is a re-hashed suffix of the chain.
- **Telemetry tick** (`telemetry.dfy`): one pass of the `simulation_loop`
  body. A reading is anomalous iff it is tampered or its temperature is
  strictly below 2 or strictly above 30. Each anomalous shipment appends
  exactly one `"ALERT"` block, in roster order. Readings and clock values are
  inputs.
- **Simulation controller** (`simulation.dfy`, `decimal.dfy`): the start/stop
  state machine (Idle / Running). Start builds the roster
  `SHIP-SIM-1 .. SHIP-SIM-n`, whose names are proved distinct through a
  decimal round trip. Stop only raises the flag. The generator leaves Running
  only when its loop head sees the flag. Over any serialized command history,
  at most one generator is alive.
- `pyslice.dfy` gives Python's `s[start:]` for any integer start.

Behaviour of the code worth noting, which the model reproduces:
- Reading a ledger that does not exist returns the empty chain. It does not
  create the genesis block.
- `add_block` takes no lock. Each append is one atomic step here.
- The ledger is not re-verified when it is loaded.

## Model

| member | source | states |
|---|---|---|
| Ledger.InitLedger | app.py:19-31 | With no ledger, the result is a one-block valid chain: index 0, a 64-'0' predecessor, data `{"genesis": true}`, and a hash over the encoded data only. The block carries the given time. An existing ledger is returned unchanged. |
| Ledger.AddBlock | app.py:33-54 | The result is the old chain (bootstrapped with genesis if absent) plus exactly one new block, which is the returned tail. Its index is the old tail's index + 1 and its prev_hash is the old tail's hash. Its data is `{"event", "payload"}` and its hash is `H(Enc(data) ++ TsStr(ts) ++ prev_hash)`. An absent ledger yields 2 blocks linked to the genesis hash. A valid ledger stays valid. |
| Ledger.AddBlockExtends | app.py:50-54 | Appending one request to a chain that already extends a base by earlier requests extends that base by all of them, in order. |
| Ledger.AppendAllExtends | app.py:33-54 | A run of appends keeps the old chain as an unchanged prefix. It adds one block per request, in request order, with that request's data and time. An empty run changes nothing, even when the ledger is absent. |
| Ledger.AppendAllPreservesValid | app.py:33-54 | Any run of appends to a valid (or absent) ledger leaves a valid chain. |
| Ledger.ReadLedger | app.py:199-205 | An absent ledger reads as the empty chain. With limit >= 1 the result is the newest min(limit, n) blocks, oldest first. Limit 0 returns the whole chain. A negative limit drops the first min(-limit, n) blocks. |
| PySlice.SliceFrom | app.py:205 | Python's `s[start:]` is always a suffix of `s`. Its length is min(-start, n) for a negative start and max(n - start, 0) otherwise. |
| Ledger.ReadWindowIsNewest | app.py:199-205 | On a valid chain with limit >= 1, the window is non-empty and ends at the tail. Its indices are consecutive and ascending, and each block links to the one before it. |
| Ledger.ZeroLimitReadsWholeChain | app.py:205 | On a 2-block ledger, the read with limit 0 returns 2 blocks, while the intended read returns none. |
| Ledger.ReadNewest | app.py:199-205 | The intended read returns at most max(limit, 0) blocks: the newest min(max(limit, 0), n), oldest first. |
| Ledger.LinkedHashDeterminesData | app.py:45-49 | Assume the encoder and the hash do not collide on these two data values. Then equal non-genesis digests with the same timestamp and predecessor mean equal data, so a changed payload changes the hash. |
| Ledger.EditedDataBreaksChain | app.py:45-49 | If a block's data in a valid chain changes and its stored hash is kept, the chain becomes invalid. This assumes no encoder or hash collision between the old and new data. |
| Ledger.RehashedEditBreaksLink | app.py:42-49 | If a non-tail block's data changes and its hash is recomputed, the chain is still invalid, because the next block's prev_hash no longer matches. This assumes no encoder or hash collision between the old and new data. |
| Ledger.RehashedTailGoesUndetected | app.py:42-50 | If the tail block's data is rewritten and its hash recomputed, the chain stays valid. The tail has no successor to expose the change. |
| Telemetry.NormalIffUntamperedInRange | app.py:158 | A reading is normal iff it is untampered and 2 <= temp <= 30. The bounds 2 and 30 are therefore normal. |
| Telemetry.AnomalousPositions | app.py:150-158 | The result lists the anomalous roster positions, each exactly once, in ascending order. A position is listed iff its reading is anomalous. |
| Telemetry.TickAlertsFollowAnomalies | app.py:150-160 | A tick requests exactly one `"ALERT"` per anomalous reading, in roster order. The j-th alert carries the shipment id, temp, tamper flag and time of the j-th anomalous position. |
| Telemetry.NoAnomalyNoAlerts | app.py:158-160 | A tick requests no alert iff no reading is anomalous. |
| Telemetry.RunTick | app.py:150-160 | Looping over the roster and appending an ALERT for each anomalous reading yields exactly the ledger from appending the tick's alert requests one after another, in roster order. |
| Telemetry.QuietTickIsNoOp | app.py:150-160 | A tick in which no reading is anomalous leaves the ledger untouched, even if absent. |
| Telemetry.AlertTickExtendsChain | app.py:150-160 | A tick with an anomalous reading extends the old chain, bootstrapped with genesis if needed, by one ALERT block per anomalous shipment, in roster order, with that shipment's payload. |
| Telemetry.TickPreservesValid | app.py:150-160 | A tick keeps a valid (or absent) ledger valid. |
| Decimal.NatToString | app.py:212 | `str(n)` is a non-empty string of decimal digits. It has a leading zero only for n = 0. |
| Decimal.NatToStringRoundTrip | app.py:212 | Reading the rendering back gives n. |
| Decimal.NatToStringInjective | app.py:212 | Distinct numbers render as distinct strings. |
| Simulation.SimRoster | app.py:212 | The roster has `count` names, or none when count < 1. |
| Simulation.SimRosterNamesDistinct | app.py:212 | The k-th roster name is exactly `SHIP-SIM-` + `str(k + 1)`, and the number k + 1 reads back from its suffix. All names are distinct. |
| Simulation.Start | app.py:207-218 | Start is rejected iff a generator is alive, even one already asked to stop. A rejected start changes nothing. A successful start goes to Running, clears the stop flag, and replies with the roster `SHIP-SIM-1..n`. |
| Simulation.Stop | app.py:220-224 | Stop raises the flag. Phase and roster are unchanged, so a live generator stays alive. |
| Simulation.StopIdempotent | app.py:220-224 | Stopping twice is the same as stopping once. |
| Simulation.LoopHead | app.py:149 | After the loop-head check, the controller is Idle iff it was Idle or the stop flag was raised. Flag and roster are unchanged. |
| Simulation.AtMostOneGenerator | app.py:207-224 | Starting from Idle, after any serialized command history, live generators (launches minus exits) number 1 when Running and 0 otherwise, so never more than one. |

## Left out

- HTTP routing, Pydantic models, static files and startup seeding (app.py:13-16, 163-197, 226-231): transport plumbing around the modelled logic.
- SQLite layer (`init_db`, `insert_shipment`, `insert_telemetry`, `get_shipments`, `get_telemetry_latest`): relational I/O. This includes the swallowed duplicate-insert error and the `BATCH-SIM-{sid[-1]}` batch names registered by start. Those names take only the last character, so `SHIP-SIM-1` and `SHIP-SIM-11` share a batch.
- JSON file persistence (open, load, seek, dump, truncate): the document is an in-memory `Store`. A file holding an empty list would make `add_block` fail at `chain[-1]`. The modelled writers never produce one, so `Store` carries only non-empty chains. External corruption of the file is not modelled.
- SHA-256, `json.dumps` and `str(float)` internals: uninterpreted. Tamper-evidence lemmas assume only that the hash and the encoder do not collide on the two data values compared. No encoder of arbitrary reals into strings can be injective, and SHA-256 is not injective either. Numbers are `real`, so JSON's int/float distinction is not modelled.
- Random sampling, Gaussian noise, rounding, position/humidity/pressure, `time.time()`, `utcnow()` and `sleep`: readings, ISO times and clock values are inputs. The genesis block's timestamp is a parameter and is not hashed.
- Threads, cross-thread visibility of the stop flag, `is_alive()` and the unlocked read-modify-write in `add_block`: appends are atomic steps and interleavings are not verified. A generator killed by an exception is not modelled. The generator leaves Running only through the loop-head check.
- Simulation.Start: modelled as one atomic step. In the code, the `is_alive()` check (app.py:210) and the thread launch (app.py:216-217) are separated by shipment inserts. Two concurrent start requests can both pass the check and launch two generators, so `Simulation.AtMostOneGenerator` holds only for serialized command histories.
- Block timestamps are the clock readings as given. The chain invariants do not require them to be non-decreasing, because the code does not enforce that.
- Telemetry.RunTick: models one pass of the outer `while` loop. The repetition until the flag is seen is modelled by `Simulation.LoopHead`, not by the tick.

## Findings

| source | as written | input that shows it | evidently intended | confidence | as-written member | corrected member |
|---|---|---|---|---|---|---|
| app.py:205 | `chain[-limit:]` with limit 0 is `chain[0:]`, the whole chain. A negative limit drops the oldest blocks instead of returning none. | `GET /api/ledger?limit=0` on a 2-block ledger returns 2 blocks | at most `limit` newest blocks, none when limit < 1 | medium, not executed | Ledger.ZeroLimitReadsWholeChain | Ledger.ReadNewest |
