/**
 The paradigm decorator: one context variable holds the active cost tier, every decorated call sets
 it and resets it on the way out, and the LLM gateway lets only the LLM tiers through.
 */
module Paradigm {
  datatype Tier = Unset | Sql | Ml | SmallLlm | FrontierLlm

  predicate IsLlm(t: Tier) { t == SmallLlm || t == FrontierLlm }

  /** What a synchronous call tree does. A handler may catch violations, other errors, or both. */
  datatype Program =
    | Return
    | Gateway
    | Fail
    | Call(tier: Tier, name: string, body: Program)
    | Then(first: Program, second: Program)
    | Try(guarded: Program, violations: bool, others: bool, handler: Program)

  datatype Signal = Normal | Violation(activeTier: Tier, fnName: string) | OtherError

  datatype Event = Dispatched(tier: Tier) | Refused(tier: Tier) | Telemetry(tier: Tier)

  // ----- the reference: a call stack of frames --------------------------------------------------

  datatype Frame = Frame(tier: Tier, name: string)

  /** A violation remembers the whole stack at the gateway. */
  datatype Exit = Done | Violated(at: seq<Frame>) | Errored

  function Innermost(frames: seq<Frame>): Tier {
    if frames == [] then Unset else frames[|frames| - 1].tier
  }

  predicate Catches(p: Program, e: Exit)
    requires p.Try?
  {
    (e.Violated? && p.violations) || (e.Errored? && p.others)
  }

  /** What happens when p is called below frames; nothing is set or reset, frames only grow inwards. */
  function Exec(p: Program, frames: seq<Frame>): (Exit, seq<Event>) {
    match p
    case Return => (Done, [])
    case Fail => (Errored, [])
    case Gateway =>
      if IsLlm(Innermost(frames)) then (Done, [Dispatched(Innermost(frames))])
      else (Violated(frames), [Refused(Innermost(frames))])
    case Call(tier, name, body) =>
      var (exit, events) := Exec(body, frames + [Frame(tier, name)]);
      (exit, events + [Telemetry(tier)])
    case Then(first, second) =>
      var (exit, events) := Exec(first, frames);
      if exit.Done? then
        var (exit2, events2) := Exec(second, frames);
        (exit2, events + events2)
      else (exit, events)
    case Try(guarded, _, _, handler) =>
      var (exit, events) := Exec(guarded, frames);
      if Catches(p, exit) then
        var (exit2, events2) := Exec(handler, frames);
        (exit2, events + events2)
      else (exit, events)
  }

  predicate Below(outer: seq<Frame>, inner: seq<Frame>) {
    |outer| <= |inner| && inner[..|outer|] == outer
  }

  /**
   How a violation looks from the stack depth outer: the tier is the innermost at the gateway, the
   name that of the outermost frame crossed since, and empty when none was.
   */
  function Seen(exit: Exit, outer: nat): Signal {
    match exit
    case Done => Normal
    case Errored => OtherError
    case Violated(at) => Violation(Innermost(at), if outer < |at| then at[outer].name else "")
  }

  /** Violations are raised at or below the stack p was called with. */
  lemma {:induction false} ViolatedBelow(p: Program, frames: seq<Frame>)
    ensures var exit := Exec(p, frames).0; exit.Violated? ==> Below(frames, exit.at)
  {
    match p
    case Return =>
    case Fail =>
    case Gateway =>
    case Call(tier, name, body) =>
      var inner := frames + [Frame(tier, name)];
      ViolatedBelow(body, inner);
      var exit := Exec(body, inner).0;
      if exit.Violated? { assert exit.at[..|frames|] == exit.at[..|inner|][..|frames|] == frames; }
    case Then(first, second) => ViolatedBelow(first, frames); ViolatedBelow(second, frames);
    case Try(guarded, _, _, handler) => ViolatedBelow(guarded, frames); ViolatedBelow(handler, frames);
  }

  // ----- the code: one variable, set and reset --------------------------------------------------

  class Runtime {
    var active: Tier
    var events: seq<Event>

    constructor ()
      ensures active == Unset && events == []
    {
      active, events := Unset, [];
    }

    /** The gate at the dispatch boundary. */
    method Complete() returns (signal: Signal)
      modifies this`events
      ensures active in {SmallLlm, FrontierLlm} ==> signal == Normal && events == old(events) + [Dispatched(active)]
      ensures active in {Unset, Sql, Ml} ==>
        signal == Violation(active, "") && events == old(events) + [Refused(active)]
    {
      if IsLlm(active) {
        events := events + [Dispatched(active)];
        return Normal;
      }
      events := events + [Refused(active)];
      signal := Violation(active, "");
    }

    /**
     Runs p with the wrapper's set, rename and reset. Whatever happens inside, the tier is back where
     it was, and outcome and events are those of the stack semantics for any stack that explains the
     tier at entry.
     */
    method Run(p: Program, ghost frames: seq<Frame>) returns (signal: Signal)
      requires active == Innermost(frames)
      modifies this
      ensures active == old(active)
      ensures signal == Seen(Exec(p, frames).0, |frames|)
      ensures events == old(events) + Exec(p, frames).1
      decreases p
    {
      match p
      case Return => signal := Normal;
      case Fail => signal := OtherError;
      case Gateway => signal := Complete();
      case Call(tier, name, body) =>
        var token := active;
        active := tier;
        ghost var inner := frames + [Frame(tier, name)];
        signal := Run(body, inner);
        ViolatedBelow(body, inner);
        if signal.Violation? {
          signal := Violation(signal.activeTier, name);
        }
        events := events + [Telemetry(tier)];
        active := token;
      case Then(first, second) =>
        signal := Run(first, frames);
        if signal == Normal {
          signal := Run(second, frames);
        }
      case Try(guarded, violations, others, handler) =>
        signal := Run(guarded, frames);
        if (signal.Violation? && violations) || (signal.OtherError? && others) {
          signal := Run(handler, frames);
        }
    }
  }

  // ----- what the gate guarantees ---------------------------------------------------------------

  predicate Dispatches(events: seq<Event>) {
    exists i: nat :: i < |events| && events[i].Dispatched?
  }

  /** Below a small or frontier tier the gateway dispatches; below any other, or no frame, it refuses. */
  lemma GatewayExactly(frames: seq<Frame>)
    ensures
      var (exit, events) := Exec(Gateway, frames);
      if frames != [] && frames[|frames| - 1].tier in {SmallLlm, FrontierLlm} then
        exit == Done && events == [Dispatched(frames[|frames| - 1].tier)]
      else
        exit == Violated(frames) && events == [Refused(if frames == [] then Unset else frames[|frames| - 1].tier)]
  {
  }

  /** All decorators in p are deterministic tiers. */
  predicate OnlyTierA(p: Program) {
    match p
    case Call(tier, _, body) => (tier == Sql || tier == Ml) && OnlyTierA(body)
    case Then(first, second) => OnlyTierA(first) && OnlyTierA(second)
    case Try(guarded, _, _, handler) => OnlyTierA(guarded) && OnlyTierA(handler)
    case _ => true
  }

  /** A call graph of sql and ml decorators, entered below such a one or none, never reaches the LLM. */
  lemma {:induction false} TierANeverDispatches(p: Program, frames: seq<Frame>)
    requires OnlyTierA(p) && (frames != [] ==> frames[|frames| - 1].tier in {Unset, Sql, Ml})
    ensures !Dispatches(Exec(p, frames).1)
  {
    match p
    case Return =>
    case Fail =>
    case Gateway =>
    case Call(tier, name, body) => TierANeverDispatches(body, frames + [Frame(tier, name)]);
    case Then(first, second) => TierANeverDispatches(first, frames); TierANeverDispatches(second, frames);
    case Try(guarded, _, _, handler) => TierANeverDispatches(guarded, frames); TierANeverDispatches(handler, frames);
  }

  /** Every dispatch is under the small or the frontier tier, every refusal outside them. */
  lemma {:induction false} EventsTellTheTier(p: Program, frames: seq<Frame>)
    ensures forall e | e in Exec(p, frames).1 ::
      && (e.Dispatched? ==> e.tier == SmallLlm || e.tier == FrontierLlm)
      && (e.Refused? ==> e.tier == Unset || e.tier == Sql || e.tier == Ml)
  {
    match p
    case Return =>
    case Fail =>
    case Gateway =>
    case Call(tier, name, body) => EventsTellTheTier(body, frames + [Frame(tier, name)]);
    case Then(first, second) => EventsTellTheTier(first, frames); EventsTellTheTier(second, frames);
    case Try(guarded, _, _, handler) => EventsTellTheTier(guarded, frames); EventsTellTheTier(handler, frames);
  }

  /** The tiers of the decorated calls p enters, in the order in which they are left. */
  function Left(p: Program, frames: seq<Frame>): seq<Tier> {
    match p
    case Return | Fail | Gateway => []
    case Call(tier, name, body) => Left(body, frames + [Frame(tier, name)]) + [tier]
    case Then(first, second) => Left(first, frames) + if Exec(first, frames).0.Done? then Left(second, frames) else []
    case Try(guarded, _, _, handler) =>
      Left(guarded, frames) + if Catches(p, Exec(guarded, frames).0) then Left(handler, frames) else []
  }

  function Reported(events: seq<Event>): seq<Tier> {
    if events == [] then []
    else (if events[0].Telemetry? then [events[0].tier] else []) + Reported(events[1..])
  }

  lemma {:induction false} ReportedJoin(a: seq<Event>, b: seq<Event>)
    ensures Reported(a + b) == Reported(a) + Reported(b)
    decreases |a|
  {
    if a == [] {
      assert a + b == b;
    } else {
      assert (a + b)[1..] == a[1..] + b && (a + b)[0] == a[0];
      ReportedJoin(a[1..], b);
    }
  }

  /** Telemetry: one event for each decorated call, on its way out, however it is left. */
  lemma {:induction false} OneReportPerCall(p: Program, frames: seq<Frame>)
    ensures Reported(Exec(p, frames).1) == Left(p, frames)
  {
    match p
    case Return =>
    case Fail =>
    case Gateway =>
    case Call(tier, name, body) =>
      OneReportPerCall(body, frames + [Frame(tier, name)]);
      ReportedJoin(Exec(body, frames + [Frame(tier, name)]).1, [Telemetry(tier)]);
    case Then(first, second) =>
      OneReportPerCall(first, frames);
      OneReportPerCall(second, frames);
      ReportedJoin(Exec(first, frames).1, Exec(second, frames).1);
      assert Left(first, frames) + [] == Left(first, frames);
    case Try(guarded, _, _, handler) =>
      OneReportPerCall(guarded, frames);
      OneReportPerCall(handler, frames);
      ReportedJoin(Exec(guarded, frames).1, Exec(handler, frames).1);
      assert Left(guarded, frames) + [] == Left(guarded, frames);
  }

  /** Only the innermost decorator matters: what encloses it never shows, except in names. */
  lemma {:induction false} OnlyTheInnermostCounts(p: Program, f: seq<Frame>, g: seq<Frame>)
    requires Innermost(f) == Innermost(g)
    ensures Exec(p, f).1 == Exec(p, g).1
    ensures Seen(Exec(p, f).0, |f|) == Seen(Exec(p, g).0, |g|)
  {
    match p
    case Return =>
    case Fail =>
    case Gateway =>
    case Call(tier, name, body) =>
      OnlyTheInnermostCounts(body, f + [Frame(tier, name)], g + [Frame(tier, name)]);
      ViolatedBelow(body, f + [Frame(tier, name)]);
      ViolatedBelow(body, g + [Frame(tier, name)]);
    case Then(first, second) => OnlyTheInnermostCounts(first, f, g); OnlyTheInnermostCounts(second, f, g);
    case Try(guarded, _, _, handler) => OnlyTheInnermostCounts(guarded, f, g); OnlyTheInnermostCounts(handler, f, g);
  }

  /** A violation leaving a decorated call names that call, whatever raised it further in. */
  lemma EscapingViolationNamesTheCall(tier: Tier, name: string, body: Program, frames: seq<Frame>)
    ensures var seen := Seen(Exec(Call(tier, name, body), frames).0, |frames|);
      seen.Violation? ==> seen.fnName == name && seen.activeTier in {Unset, Sql, Ml}
  {
    ViolatedBelow(body, frames + [Frame(tier, name)]);
    ViolationsAreRefusals(body, frames + [Frame(tier, name)]);
  }

  lemma {:induction false} ViolationsAreRefusals(p: Program, frames: seq<Frame>)
    ensures var (exit, events) := Exec(p, frames);
      exit.Violated? ==> Innermost(exit.at) in {Unset, Sql, Ml} && Refused(Innermost(exit.at)) in events
  {
    match p
    case Return =>
    case Fail =>
    case Gateway =>
    case Call(tier, name, body) => ViolationsAreRefusals(body, frames + [Frame(tier, name)]);
    case Then(first, second) => ViolationsAreRefusals(first, frames); ViolationsAreRefusals(second, frames);
    case Try(guarded, _, _, handler) => ViolationsAreRefusals(guarded, frames); ViolationsAreRefusals(handler, frames);
  }
}
