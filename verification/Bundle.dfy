/** The approval bundle: gates that are decided once, and a deadline that does not move. */
module Bundle {
  import opened Wrappers

  datatype GateState = Pending | Approved | Denied | WouldDeny

  /** What is fixed about a gate or a step when the bundle is made is one opaque value. */
  datatype Gate = Gate(stepIndex: int, toolName: string, details: int, state: GateState)

  datatype Impact = Impact(
    bundleId: int,
    programHash: string,
    createdAt: int,
    steps: seq<int>,
    gates: seq<Gate>,
    parseError: Option<string>,
    runtimeError: Option<string>,
    expiresAt: Option<int>
  )

  /** The time to live that the environment text stands for; `parse` is Python's int(). */
  function ResolvedTtl(raw: Option<string>, parse: string -> Option<int>): nat {
    if raw.None? || raw.value == "" then 86400
    else match parse(raw.value)
      case None => 86400
      case Some(n) => if n < 0 then 0 else n
  }

  /** The constructor: a missing deadline is filled in unless the time to live is zero. */
  function Made(b: Impact, ttl: nat): Impact {
    if b.expiresAt.None? && ttl > 0 then b.(expiresAt := Some(b.createdAt + ttl)) else b
  }

  predicate IsExpired(b: Impact, now: int) { b.expiresAt.Some? && now >= b.expiresAt.value }

  predicate Approvable(b: Impact) {
    b.parseError.None? && b.runtimeError.None? && !exists i :: 0 <= i < |b.gates| && b.gates[i].state.WouldDeny?
  }

  function Decide(g: Gate, verdict: GateState): Gate { if g.state.Pending? then g.(state := verdict) else g }

  function DecideGates(gates: seq<Gate>, verdict: GateState): (r: seq<Gate>)
    ensures |r| == |gates| && forall i :: 0 <= i < |r| ==> r[i] == Decide(gates[i], verdict)
  {
    seq(|gates|, i requires 0 <= i < |gates| => Decide(gates[i], verdict))
  }

  datatype Action = ApproveAll | DenyAll

  function Verdict(a: Action): GateState { if a.ApproveAll? then Approved else Denied }

  /** `approve_all` and `deny_all`: a new bundle, made anew; the two error fields are not carried over. */
  function Act(b: Impact, a: Action, ttl: nat): Impact {
    Made(Impact(b.bundleId, b.programHash, b.createdAt, b.steps, DecideGates(b.gates, Verdict(a)), None, None, b.expiresAt), ttl)
  }

  function RunActions(b: Impact, actions: seq<Action>, ttl: nat): Impact
    decreases actions
  {
    if actions == [] then b else RunActions(Act(b, actions[0], ttl), actions[1..], ttl)
  }

  /** `gate_for`: the first gate of that step and tool. */
  function GateFor(gates: seq<Gate>, stepIndex: int, toolName: string): Option<Gate> {
    if gates == [] then None
    else if gates[0].stepIndex == stepIndex && gates[0].toolName == toolName then Some(gates[0])
    else GateFor(gates[1..], stepIndex, toolName)
  }

  lemma {:induction false} DecideTwice(gates: seq<Gate>, v: GateState, w: GateState)
    requires !v.Pending?
    ensures DecideGates(DecideGates(gates, v), w) == DecideGates(gates, v)
  {
  }

  /** Over every sequence of actions the first decides and the others change no gate: each pending gate gets
      the first verdict, every other gate stays as it was, in place and in all its fields; steps and
      identity are kept; and a finite deadline does not move. */
  lemma {:induction false} FirstActionDecides(b: Impact, actions: seq<Action>, ttl: nat)
    ensures var end := RunActions(b, actions, ttl);
            && end.gates == (if actions == [] then b.gates else DecideGates(b.gates, Verdict(actions[0])))
            && end.steps == b.steps && end.bundleId == b.bundleId && end.programHash == b.programHash
            && end.createdAt == b.createdAt
            && (b.expiresAt.Some? ==> end.expiresAt == b.expiresAt)
            && (forall i :: 0 <= i < |b.gates| ==> (end.gates[i].state.WouldDeny? <==> b.gates[i].state.WouldDeny?))
    decreases actions
  {
    if actions != [] {
      FirstActionDecides(Act(b, actions[0], ttl), actions[1..], ttl);
      if |actions| > 1 { DecideTwice(b.gates, Verdict(actions[0]), Verdict(actions[1])); }
    }
  }

  /** What the first action leaves of a gate, however many follow: approving approves what was pending, denying denies
      it, a gate that was decided or would be denied stays so, and nothing else about a gate ever changes. */
  lemma GateAfter(b: Impact, actions: seq<Action>, ttl: nat, i: nat)
    requires actions != [] && i < |b.gates|
    ensures var gates := RunActions(b, actions, ttl).gates;
            |gates| == |b.gates| && gates[i] == b.gates[i].(state :=
              match b.gates[i].state
              case Pending => (match actions[0] case ApproveAll => Approved case DenyAll => Denied)
              case Approved => Approved
              case Denied => Denied
              case WouldDeny => WouldDeny)
  {
    FirstActionDecides(b, actions, ttl);
  }

  /** An expired bundle stays expired, whatever is decided on it and however late. */
  lemma ExpiredForever(b: Impact, actions: seq<Action>, ttl: nat, now: int, later: int)
    requires IsExpired(b, now) && now <= later
    ensures IsExpired(RunActions(b, actions, ttl), later)
  {
    FirstActionDecides(b, actions, ttl);
  }

  /** The setting turns deadlines off: it is a number, and not a positive one. */
  predicate TurnsOff(raw: Option<string>, parse: string -> Option<int>) {
    IsNumber(raw, parse) && parse(raw.value).value <= 0
  }

  predicate IsNumber(raw: Option<string>, parse: string -> Option<int>) {
    raw.Some? && raw.value != "" && parse(raw.value).Some?
  }

  /** A bundle made without a deadline keeps having none exactly while nothing is decided, or when the setting turns
      deadlines off; an empty setting does not. Else the first decision sets it, for as many seconds as the setting says
      or for a day. */
  lemma ImmortalIff(b: Impact, actions: seq<Action>, raw: Option<string>, parse: string -> Option<int>)
    requires b.expiresAt.None?
    ensures RunActions(b, actions, ResolvedTtl(raw, parse)).expiresAt == None <==> actions == [] || TurnsOff(raw, parse)
    ensures actions != [] && !TurnsOff(raw, parse) ==>
      RunActions(b, actions, ResolvedTtl(raw, parse)).expiresAt ==
        Some(b.createdAt + if IsNumber(raw, parse) then parse(raw.value).value else 86400)
    decreases actions
  {
    var ttl := ResolvedTtl(raw, parse);
    if actions != [] {
      FirstActionDecides(Act(b, actions[0], ttl), actions[1..], ttl);
      if ttl == 0 { ImmortalIff(Act(b, actions[0], ttl), actions[1..], raw, parse); }
    }
  }

  /** With the empty setting, which the source's comment calls immortal, the first decision sets a deadline of a day,
      and a day after its making the bundle is expired for good. */
  lemma EmptySettingExpires(b: Impact, actions: seq<Action>, parse: string -> Option<int>, later: int)
    requires b.expiresAt.None? && actions != []
    ensures IsExpired(RunActions(b, actions, ResolvedTtl(Some(""), parse)), later) <==> later >= b.createdAt + 86400
  {
    ImmortalIff(b, actions, Some(""), parse);
  }

  /** Looking a gate up after the actions finds the decided version of the gate found before. */
  lemma {:induction false} LookupCommutes(gates: seq<Gate>, v: GateState, stepIndex: int, toolName: string)
    ensures GateFor(DecideGates(gates, v), stepIndex, toolName) ==
      match GateFor(gates, stepIndex, toolName)
      case None => None
      case Some(g) => Some(Decide(g, v))
  {
    if gates != [] {
      LookupCommutes(gates[1..], v, stepIndex, toolName);
      assert DecideGates(gates, v)[1..] == DecideGates(gates[1..], v);
    }
  }

  /** A lookup finds the first gate of its step and tool. */
  lemma {:induction false} LookupFirst(gates: seq<Gate>, stepIndex: int, toolName: string, g: Gate)
    ensures GateFor(gates, stepIndex, toolName) == Some(g) <==>
      exists k :: 0 <= k < |gates| && gates[k] == g && g.stepIndex == stepIndex && g.toolName == toolName
                  && forall j :: 0 <= j < k ==> gates[j].stepIndex != stepIndex || gates[j].toolName != toolName
  {
    if gates != [] {
      LookupFirst(gates[1..], stepIndex, toolName, g);
      if k :| 0 <= k < |gates[1..]| && gates[1..][k] == g && g.stepIndex == stepIndex && g.toolName == toolName
            && forall j :: 0 <= j < k ==> gates[1..][j].stepIndex != stepIndex || gates[1..][j].toolName != toolName {
        assert gates[k + 1] == g;
        forall j | 0 < j < k + 1 ensures gates[j].stepIndex != stepIndex || gates[j].toolName != toolName {
          assert gates[j] == gates[1..][j - 1];
        }
      }
      if k :| 0 < k < |gates| && gates[k] == g && g.stepIndex == stepIndex && g.toolName == toolName
            && forall j :: 0 <= j < k ==> gates[j].stepIndex != stepIndex || gates[j].toolName != toolName {
        assert gates[1..][k - 1] == g;
        assert forall j | 0 <= j < k - 1 :: gates[1..][j] == gates[j + 1];
      }
    }
  }

  /** A bundle is approvable exactly without errors and gates that would be denied. Deciding drops the errors, so that
      after any decisions only those gates count. */
  lemma ActApprovableIff(b: Impact, actions: seq<Action>, ttl: nat)
    ensures Approvable(RunActions(b, actions, ttl)) <==>
      (actions == [] ==> b.parseError == None && b.runtimeError == None) && forall g :: g in b.gates ==> g.state != WouldDeny
    decreases actions
  {
    if actions == [] {
      if i :| 0 <= i < |b.gates| && b.gates[i].state.WouldDeny? { assert b.gates[i] in b.gates; }
    } else {
      var once := Act(b, actions[0], ttl);
      ActApprovableIff(once, actions[1..], ttl);
      SameDenials(b.gates, Verdict(actions[0]));
    }
  }

  lemma SameDenials(gates: seq<Gate>, v: GateState)
    requires v != WouldDeny
    ensures (forall g :: g in DecideGates(gates, v) ==> g.state != WouldDeny) <==> forall g :: g in gates ==> g.state != WouldDeny
  {
    var after := DecideGates(gates, v);
    forall i | 0 <= i < |gates| ensures after[i].state.WouldDeny? <==> gates[i].state.WouldDeny? {}
    if g :| g in gates && g.state == WouldDeny {
      var i :| 0 <= i < |gates| && gates[i] == g;
      assert after[i] in after;
    }
    if g :| g in after && g.state == WouldDeny {
      var i :| 0 <= i < |after| && after[i] == g;
      assert gates[i] in gates;
    }
  }

  /** A bundle with a recorded error is not approvable, and unless a gate would be denied any decision makes it so. */
  lemma ErrorForgotten(b: Impact, action: Action, ttl: nat)
    requires b.parseError.Some? || b.runtimeError.Some?
    requires forall g :: g in b.gates ==> g.state != WouldDeny
    ensures !Approvable(b) && Approvable(RunActions(b, [action], ttl))
  {
    ActApprovableIff(b, [], ttl);
    ActApprovableIff(b, [action], ttl);
  }
}
