/** The state machine of a command in a worker: stages, the export to the main process and its acknowledgement, the
    response to the client, and the timeout between stages. Every event runs to completion before the next. */
module CmdMachine {

  datatype CmdState =
    | Undefined | Ini | StgWait | ExeSched | ExeRun | ExeWait | ResBuild | ResExpbufFSend | ResResbufLSend
    | ResResbufFSend | ResExpbufLSend | ResExpbufWaitAck | TimOut | Err | Fin

  /** What a command's registration says: whether the export goes to the main process, and the number of stages. */
  datatype Reg = Reg(toMain: bool, stageCount: nat)

  /** What happened to the export of the current stage. */
  datatype Export = NotSent | Empty | Sent | Acked

  /** How the calls a handler run makes turn out. */
  datatype ExportSend = Missing | NoData | Delivered | Failed
  datatype Env = Env(execFails: bool, execWaits: bool, buildFails: bool, sending: ExportSend, responseFails: bool, timerFails: bool)

  /** ubr.c _is_last_stage */
  predicate IsLastStage(reg: Reg, stage: nat) {
    reg.stageCount == 0 || reg.stageCount == stage
  }

  /** The state after the last buffer of a stage was sent. */
  ghost function Finish(reg: Reg, stage: nat, env: Env): CmdState {
    if reg.stageCount == 0 || reg.stageCount == stage then Fin else if env.timerFails then Err else StgWait
  }

  /** The state a run of the handler ends in. */
  ghost function Ends(reg: Reg, state: CmdState, prev: CmdState, stage: nat, env: Env): CmdState {
    if state != ExeSched then Err
    else if prev in {Ini, ExeWait, StgWait} then
      if env.execFails then Err
      else if env.execWaits then ExeWait
      else if env.buildFails || env.sending.Failed? then Err
      else if reg.toMain && !env.sending.NoData? then ResExpbufWaitAck
      else if env.responseFails then Err
      else Finish(reg, stage, env)
    else if prev == ResExpbufWaitAck then
      if env.responseFails then Err else Finish(reg, stage, env)
    else Err
  }

  /** A command as a value: its state, the state before it, its stage, whether it has a timer and its handler is pending,
      what became of the stage's export and response, and whether a response was early. */
  datatype Snapshot = Snapshot(state: CmdState, prev: CmdState, stage: nat, timer: bool, pending: bool, exported: Export,
                               responded: bool, early: bool)

  /** A command whose handler is scheduled: out of a wait for a stage, the next stage begins. */
  ghost function Scheduled(s: Snapshot): Snapshot {
    if s.state == ExeSched then s
    else
      var t := s.(state := ExeSched, prev := s.state, timer := false, pending := s.pending || s.state != Ini);
      if s.state in {Ini, StgWait} then t.(stage := s.stage + 1, exported := NotSent, responded := false) else t
  }

  class Command {
    const reg: Reg
    var state: CmdState
    var prevState: CmdState
    var stage: nat
    var timOutEs: bool
    var handlerPending: bool
    var exported: Export
    var responded: bool
    var early: bool

    function Now(): Snapshot
      reads this
    {
      Snapshot(state, prevState, stage, timOutEs, handlerPending, exported, responded, early)
    }

    /** Between events. */
    predicate Resting()
      reads this
    {
      state == StgWait || state == ExeSched || state == ExeWait || state == ResExpbufWaitAck || state == TimOut || state == Err || state == Fin
    }

    /** The stage stays in range, and a timeout source exists exactly while the command waits for its next stage. */
    predicate Valid()
      reads this
    {
      && stage <= (if reg.stageCount > 1 then reg.stageCount else 1)
      && (timOutEs <==> state == StgWait)
      && (state == StgWait ==> stage < reg.stageCount)
      && (state == Fin ==> stage == if reg.stageCount > 1 then reg.stageCount else 1)
      && stage >= 1
      && (state == StgWait || state == ExeWait || state == ResExpbufWaitAck ==> !handlerPending)
      && (state == ResExpbufWaitAck || (state == ExeSched && prevState == ResExpbufWaitAck) ==> reg.toMain)
    }

    /** ubr.c _init_command: a new command, its handler scheduled once */
    constructor (r: Reg)
      ensures reg == r && Valid() && Resting() && Orderly()
      ensures Now() == Snapshot(ExeSched, Ini, 1, false, true, NotSent, false, false)
    {
      reg := r;
      state, prevState, stage := Ini, Undefined, 0;
      timOutEs, handlerPending := false, true;
      exported, responded, early := NotSent, false, false;
      new;
      var rc := ChangeState(ExeSched, false);
    }

    /** ubr.c _change_cmd_state */
    method ChangeState(to: CmdState, timerFails: bool) returns (r: int)
      modifies this
      ensures r == if old(state) == to then -1
                   else if to == StgWait && (reg.stageCount == 0 || reg.stageCount == old(stage) || timerFails) then -1
                   else if to == TimOut && old(state) != StgWait then -1 else 0
      ensures r < 0 ==> unchanged(this)
      ensures r == 0 ==> state == to && prevState == old(state)
      ensures r == 0 ==> stage == old(stage) + if to == ExeSched && old(state) in {Ini, StgWait} then 1 else 0
      ensures r == 0 ==> timOutEs == if to in {ExeSched, TimOut} then false else if to == StgWait then true else old(timOutEs)
      ensures r == 0 ==> handlerPending == (old(handlerPending) || to == TimOut || (to == ExeSched && old(state) != Ini))
      ensures early == old(early)
      ensures if r == 0 && to == ExeSched && old(state) in {Ini, StgWait} then exported == NotSent && !responded
              else exported == old(exported) && responded == old(responded)
    {
      if state == to { return -1; }
      if to == ExeSched {
        if state != Ini { handlerPending := true; }
        timOutEs := false;
        if state in {Ini, StgWait} {
          stage := stage + 1;
          exported, responded := NotSent, false;
        }
      } else if to == StgWait {
        if IsLastStage(reg, stage) { return -1; }
        if timerFails { return -1; }
        timOutEs := true;
      } else if to == TimOut {
        if state != StgWait { return -1; }
        timOutEs := false;
        handlerPending := true;
      }
      prevState, state := state, to;
      r := 0;
    }

    /** ubr.c _send_out_cmd_expbuf */
    method SendExport(how: ExportSend) returns (sent: bool, noData: bool)
      modifies this`exported
      ensures noData <==> how.NoData? && reg.toMain
      ensures sent <==> !noData && !how.Failed?
      ensures exported == if noData then Empty else if how.Delivered? then Sent else old(exported)
    {
      noData := how.NoData? && reg.toMain;
      sent := !noData && !how.Failed?;
      if noData { exported := Empty; } else if how.Delivered? { exported := Sent; }
    }

    /** ubr.c _send_out_cmd_resbuf. A response of a to-main command that leaves before the export is settled is early. */
    method SendResponse(fails: bool) returns (r: int)
      modifies this`responded, this`early
      ensures r == (if fails then -1 else 0) && responded
      ensures early == (old(early) || (reg.toMain && !Settled()))
    {
      responded := true;
      early := early || (reg.toMain && !Settled());
      r := if fails then -1 else 0;
    }

    /** The last transition of a stage. */
    method FinishStage(env: Env) returns (r: int)
      requires state in {ResResbufLSend, ResExpbufLSend}
      modifies this
      ensures exported == old(exported) && responded == old(responded) && early == old(early) && stage == old(stage)
      ensures handlerPending == old(handlerPending)
      ensures r == 0 ==> Finish(reg, old(stage), env) != Err && state == Finish(reg, old(stage), env) && timOutEs == (old(timOutEs) || state == StgWait)
      ensures r < 0 ==> Finish(reg, old(stage), env) == Err && state == old(state) && timOutEs == old(timOutEs)
      ensures r <= 0
    {
      if IsLastStage(reg, stage) {
        r := ChangeState(Fin, false);
      } else {
        r := ChangeState(StgWait, env.timerFails);
      }
    }

    /** The first part of ubr.c _cmd_handler: the command's own handler, or the way on after an acknowledgement. */
    method Execute(env: Env) returns (r: int)
      requires state == ExeSched && !timOutEs
      modifies this
      ensures r <= 0 && !timOutEs && Same(old(stage), old(handlerPending), old(exported), old(early), old(responded))
      ensures var p := old(prevState);
        if p == Ini || p == ExeWait || p == StgWait then
          if env.execFails then r < 0 else r == 0 && state == if env.execWaits then ExeWait else ResBuild
        else if p == ResExpbufWaitAck then r == 0 && state == ResResbufLSend
        else r < 0
    {
      r := -1;
      if prevState in {Ini, ExeWait, StgWait} {
        r := ChangeState(ExeRun, false);
        if env.execFails { return -1; }
        if env.execWaits { r := ChangeState(ExeWait, false); }
        if state == ExeRun { r := ChangeState(ResBuild, false); }
      } else if prevState == ResExpbufWaitAck {
        r := ChangeState(ResResbufLSend, false);
      }
    }

    predicate Same(g: nat, h: bool, x: Export, e: bool, p: bool)
      reads this
    {
      stage == g && handlerPending == h && exported == x && early == e && responded == p
    }

    /** The middle part: building the buffers and sending the first of them. */
    method SendFirst(env: Env) returns (r: int)
      requires state == ResBuild && !timOutEs
      modifies this
      ensures r <= 0 && !timOutEs && stage == old(stage) && handlerPending == old(handlerPending) && early == old(early)
      ensures r < 0 <==> env.buildFails || (if reg.toMain then env.sending.Failed? else env.responseFails)
      ensures r == 0 ==> state == if !reg.toMain then ResExpbufLSend else if env.sending.NoData? then ResResbufLSend else ResExpbufWaitAck
      ensures r == 0 && reg.toMain ==> responded == old(responded)
      ensures r == 0 && reg.toMain ==>
        exported == if env.sending.NoData? then Empty else if env.sending.Delivered? then Sent else old(exported)
      ensures r == 0 && !reg.toMain ==> responded
    {
      if env.buildFails { return -1; }
      r := ChangeState(if reg.toMain then ResExpbufFSend else ResResbufFSend, false);
      if state == ResExpbufFSend {
        var sent, noData := SendExport(env.sending);
        if !sent && !noData { return -1; }
        r := ChangeState(if noData then ResResbufLSend else ResExpbufWaitAck, false);
      } else if state == ResResbufFSend {
        r := SendResponse(env.responseFails);
        if r < 0 { return; }
        r := ChangeState(ResExpbufLSend, false);
      }
    }

    /** The last part: sending the other buffer and finishing the stage. */
    method SendLast(env: Env) returns (r: int)
      requires (state == ResResbufLSend && reg.toMain) || (state == ResExpbufLSend && !reg.toMain && responded)
      requires !timOutEs
      modifies this
      ensures r <= 0 && stage == old(stage) && handlerPending == old(handlerPending)
      ensures early == (old(early) || (old(state) == ResResbufLSend && !old(Settled())))
      ensures r == 0 ==> state == Finish(reg, stage, env) && (timOutEs <==> state == StgWait) && responded
      ensures r < 0 ==> !timOutEs
      ensures r < 0 <==> (if old(state) == ResResbufLSend then env.responseFails else env.sending.Failed?) || Finish(reg, stage, env) == Err
    {
      if state == ResResbufLSend {
        r := SendResponse(env.responseFails);
        if r < 0 { return; }
        r := FinishStage(env);
      } else if state == ResExpbufLSend {
        var sent, noData := SendExport(env.sending);
        if !sent && !noData { return -1; }
        r := FinishStage(env);
      }
    }

    /** ubr.c _cmd_handler up to its error handling */
    method Work(env: Env) returns (r: int)
      requires Resting() && state != StgWait && !timOutEs && (prevState == ResExpbufWaitAck && state == ExeSched ==> reg.toMain)
      modifies this
      ensures r <= 0 && stage == old(stage) && handlerPending == old(handlerPending)
      ensures r == 0 ==> state == Ends(reg, old(state), old(prevState), old(stage), env) && state != Err
      ensures r < 0 ==> Ends(reg, old(state), old(prevState), old(stage), env) == Err && !timOutEs
      ensures r == 0 ==> (timOutEs <==> state == StgWait)
      ensures early == (old(early) || (old(state) == ExeSched && old(prevState) == ResExpbufWaitAck && !old(Settled())))
      ensures r == 0 && state == ResExpbufWaitAck ==>
        reg.toMain && exported == (if env.sending.Delivered? then Sent else old(exported)) && responded == old(responded)
      ensures r == 0 && state == ExeWait ==> responded == old(responded)
      ensures r == 0 && (state == StgWait || state == Fin) ==> responded
    {
      if state == TimOut { return -1; }
      if state != ExeSched { return -1; }
      r := Execute(env);
      if r < 0 { return; }
      if state == ResBuild {
        r := SendFirst(env);
        if r < 0 { return; }
      }
      if state == ResResbufLSend || state == ResExpbufLSend {
        r := SendLast(env);
      }
    }

    /** ubr.c _cmd_handler, run when the event loop finds it scheduled */
    method Handler(env: Env) returns (r: int)
      requires Valid() && Resting() && handlerPending
      modifies this
      ensures Valid() && Resting()
      ensures state == Ends(reg, old(state), old(prevState), old(stage), env)
      ensures stage == old(stage) && !handlerPending
      ensures Smooth(env, old(state), old(prevState)) ==> state == if old(stage) < reg.stageCount then StgWait else Fin
      ensures early == (old(early) || (old(state) == ExeSched && old(prevState) == ResExpbufWaitAck && !old(Settled())))
      ensures state == ResExpbufWaitAck ==> exported == (if env.sending.Delivered? then Sent else old(exported)) && responded == old(responded)
      ensures state == StgWait || state == Fin ==> responded
      ensures old(Orderly()) ==> Orderly()
    {
      handlerPending := false;
      r := Work(env);
      if r < 0 {
        var rc := ChangeState(Err, false);
        handlerPending := false;
      }
    }

    /** The main process has the export, or there was nothing to export. */
    predicate Settled()
      reads this
    {
      exported.Acked? || exported.Empty?
    }

    /** A handler run in which nothing fails or waits: it has nothing to export to the main process, or that has acknowledged. */
    predicate Smooth(env: Env, s: CmdState, prev: CmdState) {
      && s == ExeSched && !env.responseFails && !env.timerFails
      && (prev == ResExpbufWaitAck
          || (Working(prev) && !env.execFails && !env.execWaits && !env.buildFails && (if reg.toMain then env.sending.NoData? else !env.sending.Failed?)))
    }

    predicate Working(prev: CmdState) {
      prev == Ini || prev == StgWait || prev == ExeWait
    }

    /** No response was early, none is about to be, and none was sent yet while a stage is being worked on. */
    predicate Orderly()
      reads this
    {
      && !early
      && (state == ExeSched && prevState == ResExpbufWaitAck && reg.toMain ==> Settled())
      && (state == ExeWait || state == ResExpbufWaitAck || (state == ExeSched && Working(prevState)) ==> !responded)
    }

    /** ubr.c _worker_recv_system_cmd_sync: the main process has received the export. */
    method OnAck()
      requires Valid() && Resting()
      modifies this
      ensures Valid() && Resting()
      ensures Now() == Scheduled(old(Now()).(exported := Acked))
      ensures old(Orderly()) && reg.toMain && old(exported).Sent? ==> Orderly()
    {
      exported := Acked;
      var r := ChangeState(ExeSched, false);
    }

    /** ubr.c _worker_recv_system_cmd_umonitor and _worker_recv_system_cmd_resources: both just schedule the handler. */
    method OnSchedule()
      requires Valid() && Resting()
      modifies this
      ensures Valid() && Resting()
      ensures Now() == Scheduled(old(Now()))
      ensures old(Orderly()) && (old(responded) || old(state) == ExeWait) ==> Orderly()
    {
      var r := ChangeState(ExeSched, false);
    }

    /** ubr.c _on_cmd_tim_out_event */
    method OnTimeout()
      requires Valid() && Resting() && timOutEs
      modifies this
      ensures Valid() && Resting()
      ensures Now() == old(Now()).(state := TimOut, prev := old(state), timer := false, pending := true)
      ensures old(Orderly()) ==> Orderly()
    {
      var r := ChangeState(TimOut, false);
    }
  }

  /** What can happen to a command. */
  datatype Event = Run(env: Env) | Ack | Monitor | Resources | Timeout

  /** The main process does not have the export yet, and there is one. */
  predicate Unsettled(s: Snapshot) {
    !s.exported.Acked? && !s.exported.Empty?
  }

  /** One event. One whose source does not exist does not happen: the handler runs when scheduled, the main process
      acknowledges an export it received, a timeout needs its timer. With `polite`, monitor events only follow the
      response of a stage. */
  predicate Happens(reg: Reg, polite: bool, s: Snapshot, event: Event) {
    match event
    case Run(_) => s.pending
    case Ack => reg.toMain && s.exported.Sent?
    case Monitor => s.responded || !polite
    case Resources => s.state == ExeWait
    case Timeout => s.timer
  }

  /** What the event makes of the command. */
  ghost predicate Leads(reg: Reg, s: Snapshot, event: Event, t: Snapshot) {
    match event
    case Run(env) =>
      && t.state == Ends(reg, s.state, s.prev, s.stage, env) && t.stage == s.stage && !t.pending && (t.timer <==> t.state == StgWait)
      && t.early == (s.early || (s.state == ExeSched && s.prev == ResExpbufWaitAck && Unsettled(s)))
      && (t.state == StgWait || t.state == Fin ==> t.responded)
      && (t.state == ResExpbufWaitAck ==> t.exported == (if env.sending.Delivered? then Sent else s.exported) && t.responded == s.responded)
    case Ack => t == Scheduled(s.(exported := Acked))
    case Monitor => t == Scheduled(s)
    case Resources => t == Scheduled(s)
    case Timeout => t == s.(state := TimOut, prev := s.state, timer := false, pending := true)
  }

  ghost predicate IsRun(reg: Reg, polite: bool, events: seq<Event>, trace: seq<Snapshot>) {
    && |trace| == |events| + 1 && trace[0] == Snapshot(ExeSched, Ini, 1, false, true, NotSent, false, false)
    && forall i :: 0 <= i < |events| ==>
      if Happens(reg, polite, trace[i], events[i]) then Leads(reg, trace[i], events[i], trace[i + 1]) else trace[i + 1] == trace[i]
  }

  /** The stage stays in range, a timer exists exactly while the command waits for its next stage, a command is finished only
      in its last stage, and, with `polite`, no response ever leaves before the export is settled. */
  predicate Safe(reg: Reg, polite: bool, s: Snapshot) {
    && s.stage <= (if reg.stageCount > 1 then reg.stageCount else 1)
    && (s.timer <==> s.state == StgWait)
    && (s.state == StgWait ==> s.stage < reg.stageCount)
    && (s.state == Fin ==> s.stage == if reg.stageCount > 1 then reg.stageCount else 1)
    && (polite ==> !s.early)
    && s.state in {StgWait, ExeSched, ExeWait, ResExpbufWaitAck, TimOut, Err, Fin}
  }

  /** An event reaches a command. */
  method Take(c: Command, event: Event, polite: bool)
    requires c.Valid() && c.Resting() && (polite ==> c.Orderly())
    modifies c
    ensures c.Valid() && c.Resting() && (polite ==> c.Orderly())
    ensures if Happens(c.reg, polite, old(c.Now()), event) then Leads(c.reg, old(c.Now()), event, c.Now()) else c.Now() == old(c.Now())
  {
    match event
    case Run(env) =>
      if c.handlerPending { var r := c.Handler(env); }
    case Ack =>
      if c.reg.toMain && c.exported.Sent? { c.OnAck(); }
    case Monitor =>
      if c.responded || !polite { c.OnSchedule(); }
    case Resources =>
      if c.state == ExeWait { c.OnSchedule(); }
    case Timeout =>
      if c.timOutEs { c.OnTimeout(); }
  }

  /** Every interleaving of handler runs, acknowledgements, monitor events, resource replies and timeouts is safe all along. */
  method Drive(reg: Reg, events: seq<Event>, polite: bool) returns (trace: seq<Snapshot>)
    ensures IsRun(reg, polite, events, trace)
    ensures forall i :: 0 <= i < |trace| ==> Safe(reg, polite, trace[i])
    ensures trace[|events|].early <==> exists i, j :: Overtaken(reg, polite, events, trace, i, j)
  {
    hide Happens, Leads, Scheduled, Ends, Overtaken;
    var c := new Command(reg);
    trace := [c.Now()];
    for i := 0 to |events|
      invariant fresh(c) && c.reg == reg && c.Valid() && c.Resting() && (polite ==> c.Orderly())
      invariant IsRun(reg, polite, events[..i], trace) && trace[i] == c.Now()
      invariant forall j :: 0 <= j < |trace| ==> Safe(reg, polite, trace[j])
    {
      Take(c, events[i], polite);
      OneMore(reg, polite, events[..i], trace, events[i], c.Now());
      assert events[..i + 1] == events[..i] + [events[i]];
      trace := trace + [c.Now()];
    }
    assert events[..|events|] == events;
    EarlyIffOvertaken(reg, polite, events, trace);
  }

  lemma OneMore(reg: Reg, polite: bool, events: seq<Event>, trace: seq<Snapshot>, event: Event, t: Snapshot)
    requires IsRun(reg, polite, events, trace)
    requires var s := trace[|events|]; if Happens(reg, polite, s, event) then Leads(reg, s, event, t) else t == s
    ensures IsRun(reg, polite, events + [event], trace + [t])
  {
    hide Happens, Leads;
    forall i | 0 <= i < |events| + 1
      ensures var s, e, u := (trace + [t])[i], (events + [event])[i], (trace + [t])[i + 1];
        if Happens(reg, polite, s, e) then Leads(reg, s, e, u) else u == s
    {
    }
  }

  // ----- When a response is early -----

  /** A monitor event at `i` is taken for the acknowledgement a command waits for, and the next handler run, at `j`, comes
      before the acknowledgement. */
  ghost predicate Overtaken(reg: Reg, polite: bool, events: seq<Event>, trace: seq<Snapshot>, i: nat, j: nat)
    requires |trace| == |events| + 1
  {
    && i < j < |events|
    && trace[i].state == ResExpbufWaitAck && Unsettled(trace[i])
    && events[i].Monitor? && Happens(reg, polite, trace[i], events[i])
    && events[j].Run?
    && forall k :: i < k < j ==> !events[k].Run? && !(events[k].Ack? && Happens(reg, polite, trace[k], events[k]))
  }

  /** The next handler run sends the response, and it is early. */
  predicate AboutToBeEarly(s: Snapshot) {
    s.state == ExeSched && s.prev == ResExpbufWaitAck && s.pending && Unsettled(s)
  }

  lemma {:induction false} TimerMeansWait(reg: Reg, polite: bool, events: seq<Event>, trace: seq<Snapshot>, n: nat)
    requires IsRun(reg, polite, events, trace) && n <= |events|
    ensures trace[n].timer ==> trace[n].state == StgWait
    decreases n
  {
    if n > 0 { TimerMeansWait(reg, polite, events, trace, n - 1); }
  }

  /** Between the monitor event and the handler run nothing changes. */
  lemma {:induction false} Stays(reg: Reg, polite: bool, events: seq<Event>, trace: seq<Snapshot>, i: nat, j: nat, k: nat)
    requires IsRun(reg, polite, events, trace) && Overtaken(reg, polite, events, trace, i, j) && i < k <= j
    ensures AboutToBeEarly(trace[k])
    decreases k
  {
    if k > i + 1 {
      Stays(reg, polite, events, trace, i, j, k - 1);
      TimerMeansWait(reg, polite, events, trace, k - 1);
    }
  }

  lemma {:induction false} EarlyStays(reg: Reg, polite: bool, events: seq<Event>, trace: seq<Snapshot>, n: nat, m: nat)
    requires IsRun(reg, polite, events, trace) && n <= m <= |events| && trace[n].early
    ensures trace[m].early
    decreases m
  {
    if n < m { EarlyStays(reg, polite, events, trace, n, m - 1); }
  }

  /** How a command came to be about to be early. */
  lemma {:induction false} Origin(reg: Reg, polite: bool, events: seq<Event>, trace: seq<Snapshot>, j: nat) returns (i: nat)
    requires IsRun(reg, polite, events, trace)
    requires j < |events| && AboutToBeEarly(trace[j]) && events[j].Run?
    ensures Overtaken(reg, polite, events, trace, i, j)
  {
    var n: nat := j;
    while AboutToBeEarly(trace[n - 1])
      invariant 0 < n <= j && AboutToBeEarly(trace[n])
      invariant forall k :: n <= k < j ==> !events[k].Run? && !(events[k].Ack? && Happens(reg, polite, trace[k], events[k]))
      decreases n
    {
      n := n - 1;
    }
    i := n - 1;
  }

  lemma {:induction false} EarlyHasOrigin(reg: Reg, polite: bool, events: seq<Event>, trace: seq<Snapshot>, n: nat) returns (i: nat, j: nat)
    requires IsRun(reg, polite, events, trace)
    requires n <= |events| && trace[n].early
    ensures Overtaken(reg, polite, events, trace, i, j)
    decreases n
  {
    if trace[n - 1].early {
      i, j := EarlyHasOrigin(reg, polite, events, trace, n - 1);
    } else {
      j := n - 1;
      i := Origin(reg, polite, events, trace, j);
    }
  }

  /** A response leaves before the export is settled exactly when a monitor event overtakes the acknowledgement and the
      handler runs before the acknowledgement comes. Monitor events at any other time do no harm. */
  lemma EarlyIffOvertaken(reg: Reg, polite: bool, events: seq<Event>, trace: seq<Snapshot>)
    requires IsRun(reg, polite, events, trace)
    ensures trace[|events|].early <==> exists i, j :: Overtaken(reg, polite, events, trace, i, j)
  {
    hide Happens, Leads;
    if trace[|events|].early {
      var i, j := EarlyHasOrigin(reg, polite, events, trace, |events|);
    }
    if i: nat, j: nat :| Overtaken(reg, polite, events, trace, i, j) {
      Stays(reg, polite, events, trace, i, j, j);
      TurnsEarly(reg, polite, events, trace, j);
      EarlyStays(reg, polite, events, trace, j + 1, |events|);
    }
  }

  lemma TurnsEarly(reg: Reg, polite: bool, events: seq<Event>, trace: seq<Snapshot>, j: nat)
    requires IsRun(reg, polite, events, trace) && j < |events| && events[j].Run? && AboutToBeEarly(trace[j])
    ensures trace[j + 1].early
  {
  }

  /** A command with any number of stages in which nothing goes wrong: each stage exports, is acknowledged if it must be, and
      responds once; the command is finished after its last stage, and not before. */
  method AllStages(reg: Reg) returns (c: Command, responses: nat)
    ensures c.reg == reg && c.state == Fin && !c.early
    ensures c.stage == responses == if reg.stageCount > 1 then reg.stageCount else 1
  {
    var env := Env(false, false, false, Delivered, false, false);
    c := new Command(reg);
    OneStage(c, env);
    responses := 1;
    while c.state == StgWait
      invariant fresh(c) && c.reg == reg && c.Valid() && c.Resting() && c.Orderly() && (c.state == StgWait || c.state == Fin)
      invariant c.stage == responses && c.responded
      decreases reg.stageCount - c.stage
    {
      c.OnSchedule();
      OneStage(c, env);
      responses := responses + 1;
    }
  }

  /** One stage: the response was not sent before and is sent now. */
  method OneStage(c: Command, env: Env)
    requires env == Env(false, false, false, Delivered, false, false)
    requires c.Valid() && c.Resting() && c.Orderly() && c.state == ExeSched && c.Working(c.prevState) && c.handlerPending
    modifies c
    ensures c.Valid() && c.Resting() && c.Orderly() && c.stage == old(c.stage)
    ensures c.state == if c.stage < c.reg.stageCount then StgWait else Fin
    ensures !old(c.responded) && c.responded
  {
    var r := c.Handler(env);
    if c.reg.toMain {
      assert c.state == ResExpbufWaitAck;
      c.OnAck();
      r := c.Handler(env);
    }
  }

  /** Without that promise the response can overtake the acknowledgement: a monitor event that arrives while the command
      waits for it is taken for it. */
  method MonitorOvertakesAck(stageCount: nat) returns (early: bool)
    ensures early
  {
    var c := new Command(Reg(true, stageCount));
    var env := Env(false, false, false, Delivered, false, false);
    var r := c.Handler(env);
    c.OnSchedule();
    r := c.Handler(env);
    early := c.early;
  }
}
