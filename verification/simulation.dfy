/**
 The simulation controller: a two-state machine (Idle / Running) guarding the
 single background generator. `Start` launches a generator over a fresh roster
 unless one is alive; `Stop` only raises the stop flag; the generator leaves
 Running when its loop head observes the flag.
 */
module Simulation {
  import opened Decimal

  /** Whether a generator thread is alive. */
  datatype Phase = Idle | Running

  /** The controller's state: the generator's liveness, the shared stop flag,
      and the roster the live (or last) generator was launched with. */
  datatype Controller = Controller(phase: Phase, stopRequested: bool, roster: seq<string>)

  /** Before any start: no thread, flag clear. */
  const Initial: Controller := Controller(Idle, false, [])

  const RosterPrefix: string := "SHIP-SIM-"

  /** `["SHIP-SIM-1", ..., "SHIP-SIM-count"]`; empty for a count below one. */
  function SimRoster(count: int): (r: seq<string>)
    ensures |r| == if count > 0 then count else 0
  {
    seq(if count > 0 then count else 0, k requires k >= 0 => RosterPrefix + NatToString(k + 1))
  }

  /** Every roster name is the prefix followed by `str` of its 1-based
      position, the position reads back from it, and the names are pairwise
      distinct. */
  lemma SimRosterNamesDistinct(count: int)
    ensures var r := SimRoster(count);
      && (forall k :: 0 <= k < |r| ==>
            r[k] == RosterPrefix + NatToString(k + 1)
            && |r[k]| > |RosterPrefix| && r[k][..|RosterPrefix|] == RosterPrefix
            && AllDigits(r[k][|RosterPrefix|..]) && DigitsValue(r[k][|RosterPrefix|..]) == k + 1)
      && (forall j, k :: 0 <= j < k < |r| ==> r[j] != r[k])
  {
    var r := SimRoster(count);
    forall k | 0 <= k < |r|
      ensures r[k][|RosterPrefix|..] == NatToString(k + 1)
      ensures DigitsValue(r[k][|RosterPrefix|..]) == k + 1
    {
      assert r[k] == RosterPrefix + NatToString(k + 1);
      NatToStringRoundTrip(k + 1);
    }
  }

  /** The reply of the start endpoint: the roster, or the "already running" rejection. */
  datatype StartReply = Started(shipments: seq<string>) | AlreadyRunning

  datatype StartResult = StartResult(next: Controller, reply: StartReply)

  /** `api_simulate_start(count)`: rejected with no change while a generator is
      alive (even one already asked to stop); otherwise clears the stop flag and
      launches a generator over the fresh roster, which is also the reply. */
  function Start(c: Controller, count: int): (r: StartResult)
    ensures c.phase == Running <==> r.reply == AlreadyRunning
    ensures c.phase == Running ==> r.next == c
    ensures c.phase == Idle ==>
      && r.next.phase == Running
      && !r.next.stopRequested
      && r.reply == Started(r.next.roster)
      && |r.next.roster| == (if count > 0 then count else 0)
      && r.next.roster == SimRoster(count)
  {
    if c.phase == Running then StartResult(c, AlreadyRunning)
    else
      var roster := SimRoster(count);
      StartResult(Controller(Running, false, roster), Started(roster))
  }

  /** `api_simulate_stop`: raises the stop flag and nothing else; the generator,
      if any, is still alive until it observes the flag. */
  function Stop(c: Controller): (r: Controller)
    ensures r.stopRequested
    ensures r.phase == c.phase && r.roster == c.roster
  {
    c.(stopRequested := true)
  }

  /** Stopping twice is stopping once. */
  lemma StopIdempotent(c: Controller)
    ensures Stop(Stop(c)) == Stop(c)
  {
  }

  /** The generator's loop head: a live generator that finds the flag raised
      exits; in every other case nothing changes. */
  function LoopHead(c: Controller): (r: Controller)
    ensures r.stopRequested == c.stopRequested && r.roster == c.roster
    ensures r.phase.Idle? <==> c.phase.Idle? || c.stopRequested
  {
    if c.phase.Running? && c.stopRequested then c.(phase := Idle) else c
  }

  /** The events that move the controller. */
  datatype Command = StartCmd(count: int) | StopCmd | LoopCheck

  function Step(c: Controller, cmd: Command): Controller
  {
    match cmd
    case StartCmd(count) => Start(c, count).next
    case StopCmd => Stop(c)
    case LoopCheck => LoopHead(c)
  }

  /** The controller after a history of commands, oldest first. */
  function Replay(c: Controller, cmds: seq<Command>): Controller
    decreases |cmds|
  {
    if |cmds| == 0 then c
    else Step(Replay(c, cmds[..|cmds| - 1]), cmds[|cmds| - 1])
  }

  /** Generator threads launched minus generator threads exited by one command. */
  function LiveDelta(c: Controller, cmd: Command): int
  {
    match cmd
    case StartCmd(count) => if Start(c, count).reply.Started? then 1 else 0
    case StopCmd => 0
    case LoopCheck => if c.phase == Running && LoopHead(c).phase == Idle then -1 else 0
  }

  /** Generator threads alive after a history: launches minus exits. */
  function LiveGenerators(c: Controller, cmds: seq<Command>): int
    decreases |cmds|
  {
    if |cmds| == 0 then 0
    else
      var front := cmds[..|cmds| - 1];
      LiveGenerators(c, front) + LiveDelta(Replay(c, front), cmds[|cmds| - 1])
  }

  /** From an idle controller, whatever commands arrive, at most one generator
      is ever alive, and one is alive exactly when the controller is Running. */
  lemma {:induction false} AtMostOneGenerator(c: Controller, cmds: seq<Command>)
    requires c.phase == Idle
    ensures LiveGenerators(c, cmds) == if Replay(c, cmds).phase == Running then 1 else 0
    ensures 0 <= LiveGenerators(c, cmds) <= 1
    decreases |cmds|
  {
    if |cmds| > 0 {
      AtMostOneGenerator(c, cmds[..|cmds| - 1]);
    }
  }
}
