/**
 The commit gateway: one-table commits, and transactions over several tables that are gated
 as a whole before any table is forwarded upstream.

 The dependencies are a script per table: what each of them answers when it is asked.
 */
module Gateway {
  import opened Common

  datatype Ref = Ref(namespace: seq<string>, name: string)

  /** A table and the commit requested for it. */
  datatype Change = Change(ref: Ref, request: string)

  datatype LoadAnswer = Loaded | TableNotFound | CredentialsExpired | LoadFailed

  datatype Decision = Allow | Deny | EvalError

  datatype CommitAnswer = Accepted(result: Option<CommitResult>) | Conflict | CommitFailed

  /**
   The audit writer may return an error although its transaction committed.  It panics on a principal,
   reason or location it cannot splice into Cypher.
   */
  datatype AuditAnswer = Persisted | PersistedThenErred | AuditFailed | AuditPanicked

  /** The record is there, whatever the caller was told. */
  predicate Written(a: AuditAnswer) {
    a.Persisted? || a.PersistedThenErred?
  }

  /** The caller was told of an error. */
  predicate Errs(a: AuditAnswer) {
    a.PersistedThenErred? || a.AuditFailed?
  }

  /** Answers of the catalog, the policy store and evaluator, the audit writer and the ingest service. */
  datatype Script = Script(
    load: LoadAnswer, policies: Reply<seq<Decision>>, rejectedAudit: AuditAnswer,
    commit: CommitAnswer, approvedAudit: AuditAnswer)

  datatype AuditKind = Rejected | Approved

  /** Calls in the order they are made; `ok` says whether the call succeeded. */
  datatype Effect =
    | LoadTable(ref: Ref)
    | LoadPolicies(ref: Ref)
    | Evaluate(ref: Ref, policy: nat)
    | Audit(ref: Ref, kind: AuditKind, answer: AuditAnswer)
    | CommitTable(ref: Ref, request: string, ok: bool)
    | Ingest(snapshot: CommitResult)

  datatype Reason = PolicyEngineUnavailable | PolicyDenied | PartitionSpecMismatch

  datatype Status = Http(code: nat) | Panicked

  /** A stretch of a handler: the status it stops with, if it does, its calls and its counter bumps. */
  datatype Part = Part(stop: Option<Status>, effects: seq<Effect>, rejections: seq<Reason>)

  const NOTHING: Part := Part(None, [], [])

  /** `q` runs unless `p` has stopped. */
  function Then(p: Part, q: Part): Part {
    if p.stop.Some? then p else Part(q.stop, p.effects + q.effects, p.rejections + q.rejections)
  }

  function Stop(code: nat): Part {
    Part(Some(Http(code)), [], [])
  }

  function Call(x: Effect): Part {
    Part(None, [x], [])
  }

  function Reject(code: nat, reasons: seq<Reason>): Part {
    Part(Some(Http(code)), [], reasons)
  }

  // ---- What the handlers do ----

  predicate IdentChar(c: char) {
    'a' <= c <= 'z' || 'A' <= c <= 'Z' || '0' <= c <= '9' || c == '_' || c == '-'
  }

  predicate Identifier(s: string) {
    s != "" && forall c | c in s :: IdentChar(c)
  }

  predicate ValidRef(r: Ref) {
    Identifier(r.name) && forall n | n in r.namespace :: Identifier(n)
  }

  /** Of the characters that are safe in Cypher, names have the letters, the digits and two others. */
  lemma IdentCharIff(c: char)
    ensures IdentChar(c) <==> SafeChar(c) && (c == '_' || c == '-' || c !in "._-/:@+=~%?&,[]()* ")
    ensures !Identifier("")
  {
    assert '_' in "._-" && '-' in "._-";
  }

  /** A table that gets past the name check can be spliced into the Cypher of its audit. */
  lemma ValidRefsAreSpliceable(r: Ref)
    requires ValidRef(r)
    ensures SafeLiteral(r.name) && SafeLiteral(JoinNamespace(r.namespace))
  {
    IdentifiersAreSafe(r.namespace);
  }

  lemma {:induction false} IdentifiersAreSafe(parts: seq<string>)
    requires forall n | n in parts :: Identifier(n)
    ensures SafeLiteral(JoinNamespace(parts))
  {
    if parts != [] {
      IdentifiersAreSafe(parts[1..]);
      assert parts[0] in parts && SafeChar('.');
    }
  }

  function LoadPart(ref: Ref, s: Script): Part {
    Then(Call(LoadTable(ref)),
      match s.load
      case Loaded => NOTHING
      case TableNotFound => Stop(404)
      case CredentialsExpired => Stop(401)
      case LoadFailed => Stop(502))
  }

  /** How a denial ends, by the outcome of its audit. */
  function DenialStatus(a: AuditAnswer): Status {
    match a
    case Persisted => Http(403)
    case AuditPanicked => Panicked
    case _ => Http(503)
  }

  function DenialReasons(a: AuditAnswer): seq<Reason> {
    if Errs(a) then [PolicyDenied, PolicyEngineUnavailable] else [PolicyDenied]
  }

  /** A denial is audited; one that cannot be audited counts as an unavailable engine. */
  function DenyPart(ref: Ref, s: Script): Part {
    Part(
      Some(DenialStatus(s.rejectedAudit)),
      [Audit(ref, Rejected, s.rejectedAudit)],
      DenialReasons(s.rejectedAudit))
  }

  function DecisionPart(ref: Ref, s: Script, policy: nat, d: Decision): Part {
    Then(Call(Evaluate(ref, policy)),
      match d
      case Allow => NOTHING
      case Deny => DenyPart(ref, s)
      case EvalError => Reject(503, [PolicyEngineUnavailable]))
  }

  /** The first `n` policies, until one stops the request. */
  function PoliciesPart(ref: Ref, s: Script, ds: seq<Decision>, n: nat): Part
    requires n <= |ds|
  {
    if n == 0 then NOTHING else Then(PoliciesPart(ref, s, ds, n - 1), DecisionPart(ref, s, n - 1, ds[n - 1]))
  }

  function PolicyPart(ref: Ref, s: Script): Part {
    Then(Call(LoadPolicies(ref)),
      match s.policies
      case Failed => Reject(503, [PolicyEngineUnavailable])
      case Answer(ds) => PoliciesPart(ref, s, ds, |ds|))
  }

  function GatePart(c: Change, s: Script): Part {
    if !ValidRef(c.ref) then Stop(400) else Then(LoadPart(c.ref, s), PolicyPart(c.ref, s))
  }

  function CommitPart(c: Change, s: Script): Part {
    Part(
      (match s.commit case Accepted(_) => None case Conflict => Some(Http(409)) case CommitFailed => Some(Http(502))),
      [CommitTable(c.ref, c.request, s.commit.Accepted?)], [])
  }

  /** Ingest of the new snapshot, if the catalog names one; its failure is only logged. */
  function IngestPart(s: Script): Part {
    if s.commit.Accepted? && s.commit.result.Some? && s.commit.result.value.location != ""
    then Call(Ingest(s.commit.result.value))
    else NOTHING
  }

  function ApprovedPart(ref: Ref, s: Script): Part {
    Part(if s.approvedAudit.AuditPanicked? then Some(Panicked) else None,
      [Audit(ref, Approved, s.approvedAudit)], [])
  }

  function ForwardPart(c: Change, s: Script): Part {
    Then(CommitPart(c, s), Then(ApprovedPart(c.ref, s), IngestPart(s)))
  }

  /** The first `n` tables through the gate. */
  function GateAll(cs: seq<Change>, ss: seq<Script>, n: nat): Part
    requires n <= |cs| == |ss|
  {
    if n == 0 then NOTHING else Then(GateAll(cs, ss, n - 1), GatePart(cs[n - 1], ss[n - 1]))
  }

  function ForwardAll(cs: seq<Change>, ss: seq<Script>, n: nat): Part
    requires n <= |cs| == |ss|
  {
    if n == 0 then NOTHING else Then(ForwardAll(cs, ss, n - 1), ForwardPart(cs[n - 1], ss[n - 1]))
  }

  function MultiPart(cs: seq<Change>, ss: seq<Script>): Part
    requires |cs| == |ss|
  {
    if cs == [] then Stop(400)
    else Then(Then(GateAll(cs, ss, |cs|), ForwardAll(cs, ss, |cs|)), Stop(200))
  }

  // ---- The one-table handler ----

  /** The write-coordinator hook: `Absent` when no store is configured. */
  datatype Coordinator = Absent | Cleared | SpecMismatch | StoreFailed

  predicate Clear(w: Coordinator) {
    w.Absent? || w.Cleared?
  }

  function CoordinatorPart(w: Coordinator): Part {
    match w
    case SpecMismatch => Reject(403, [PartitionSpecMismatch])
    case StoreFailed => Reject(503, [PolicyEngineUnavailable])
    case _ => NOTHING
  }

  /** Logging a failed APPROVED audit reads the snapshot id of the result, which may be nil. */
  function LoggedApprovedPart(ref: Ref, s: Script): Part {
    if Errs(s.approvedAudit) && s.commit == Accepted(None)
    then ApprovedPart(ref, s).(stop := Some(Panicked))
    else ApprovedPart(ref, s)
  }

  /** Forwarding in the one-table handler. */
  function SendPart(c: Change, s: Script): Part {
    Then(CommitPart(c, s), Then(LoggedApprovedPart(c.ref, s), IngestPart(s)))
  }

  function SinglePart(c: Change, s: Script, w: Coordinator): Part {
    if !ValidRef(c.ref) then Stop(400)
    else
      Then(Then(LoadPart(c.ref, s), CoordinatorPart(w)),
        Then(PolicyPart(c.ref, s), Then(SendPart(c, s), Stop(200))))
  }

  /** The commit went through and its audit returned. */
  predicate Done(s: Script) {
    s.commit.Accepted? && !s.approvedAudit.AuditPanicked?
  }

  /** Where forwarding one table of a transaction ends. */
  function SendStop(s: Script): Option<Status> {
    match s.commit
    case Conflict => Some(Http(409))
    case CommitFailed => Some(Http(502))
    case Accepted(_) => if s.approvedAudit.AuditPanicked? then Some(Panicked) else None
  }

  // ---- The handlers ----

  /** The policy loop, shared by both handlers. */
  method EvaluatePolicies(ref: Ref, s: Script) returns (p: Part)
    ensures p == PolicyPart(ref, s)
  {
    hide DecisionPart, PoliciesPart;
    if s.policies.Failed? {
      return Part(Some(Http(503)), [LoadPolicies(ref)], [PolicyEngineUnavailable]);
    }
    var ds := s.policies.value;
    var effects, rejections := [], [];
    var n := 0;
    NoPoliciesYet(ref, s, ds);
    while n < |ds|
      invariant 0 <= n <= |ds|
      invariant PoliciesPart(ref, s, ds, n) == Part(None, effects, rejections)
    {
      OnePolicyMore(ref, s, ds, n);
      StopsAt(ref, s, ds, n + 1);
      effects := effects + [Evaluate(ref, n)];
      match ds[n] {
        case Allow =>
        case EvalError =>
          return Part(Some(Http(503)), [LoadPolicies(ref)] + effects, rejections + [PolicyEngineUnavailable]);
        case Deny =>
          rejections := rejections + [PolicyDenied];
          effects := effects + [Audit(ref, Rejected, s.rejectedAudit)];
          if s.rejectedAudit.AuditPanicked? {
            return Part(Some(Panicked), [LoadPolicies(ref)] + effects, rejections);
          }
          if Errs(s.rejectedAudit) {
            return Part(Some(Http(503)), [LoadPolicies(ref)] + effects, rejections + [PolicyEngineUnavailable]);
          }
          return Part(Some(Http(403)), [LoadPolicies(ref)] + effects, rejections);
      }
      n := n + 1;
    }
    return Part(None, [LoadPolicies(ref)] + effects, rejections);
  }

  lemma NoPoliciesYet(ref: Ref, s: Script, ds: seq<Decision>)
    ensures PoliciesPart(ref, s, ds, 0) == NOTHING
  {
  }

  /** What one more policy does to an unfinished evaluation. */
  lemma OnePolicyMore(ref: Ref, s: Script, ds: seq<Decision>, n: nat)
    requires n < |ds| && PoliciesPart(ref, s, ds, n).stop.None?
    ensures
      var p, q := PoliciesPart(ref, s, ds, n), PoliciesPart(ref, s, ds, n + 1);
      match ds[n]
      case Allow => q == Part(None, p.effects + [Evaluate(ref, n)], p.rejections)
      case EvalError =>
        q == Part(Some(Http(503)), p.effects + [Evaluate(ref, n)], p.rejections + [PolicyEngineUnavailable])
      case Deny =>
        q == Part(DenyPart(ref, s).stop,
          p.effects + [Evaluate(ref, n)] + [Audit(ref, Rejected, s.rejectedAudit)],
          p.rejections + DenyPart(ref, s).rejections)
  {
  }

  /** Policies behind one that stopped the request are not evaluated. */
  lemma {:induction false} StopsAt(ref: Ref, s: Script, ds: seq<Decision>, n: nat)
    requires n <= |ds|
    ensures PoliciesPart(ref, s, ds, n).stop.Some? ==> PoliciesPart(ref, s, ds, |ds|) == PoliciesPart(ref, s, ds, n)
    decreases |ds| - n
  {
    if n < |ds| {
      StopsAt(ref, s, ds, n + 1);
    }
  }

  /** The one-table handler, behind its request decoding and credential lookup. */
  method CommitHandler(c: Change, s: Script, w: Coordinator) returns (p: Part)
    ensures p == SinglePart(c, s, w)
  {
    hide Then, PolicyPart, SendPart, SinglePart;
    Sends(c, s);
    SingleCases(c, s, w);
    if !ValidRef(c.ref) {
      return Part(Some(Http(400)), [], []);
    }
    var effects := [LoadTable(c.ref)];
    match s.load {
      case TableNotFound => return Part(Some(Http(404)), effects, []);
      case CredentialsExpired => return Part(Some(Http(401)), effects, []);
      case LoadFailed => return Part(Some(Http(502)), effects, []);
      case Loaded =>
    }
    match w {
      case SpecMismatch => return Part(Some(Http(403)), effects, [PartitionSpecMismatch]);
      case StoreFailed => return Part(Some(Http(503)), effects, [PolicyEngineUnavailable]);
      case _ =>
    }
    var policy := EvaluatePolicies(c.ref, s);
    effects := effects + policy.effects;
    if policy.stop.Some? {
      return Part(policy.stop, effects, policy.rejections);
    }
    effects := effects + [CommitTable(c.ref, c.request, s.commit.Accepted?)];
    match s.commit {
      case Conflict => return Part(Some(Http(409)), effects, policy.rejections);
      case CommitFailed => return Part(Some(Http(502)), effects, policy.rejections);
      case Accepted(result) =>
        effects := effects + [Audit(c.ref, Approved, s.approvedAudit)];
        if s.approvedAudit.AuditPanicked? || (Errs(s.approvedAudit) && result.None?) {
          return Part(Some(Panicked), effects, policy.rejections);
        }
        if result.Some? && result.value.location != "" {
          effects := effects + [Ingest(result.value)];
        }
    }
    return Part(Some(Http(200)), effects, policy.rejections);
  }

  /** Everything `SinglePart` does, case by case. */
  lemma SingleCases(c: Change, s: Script, w: Coordinator)
    ensures
      var p, policy, send := SinglePart(c, s, w), PolicyPart(c.ref, s), SendPart(c, s);
      if !ValidRef(c.ref) then p == Part(Some(Http(400)), [], [])
      else if s.load.TableNotFound? then p == Part(Some(Http(404)), [LoadTable(c.ref)], [])
      else if s.load.CredentialsExpired? then p == Part(Some(Http(401)), [LoadTable(c.ref)], [])
      else if s.load.LoadFailed? then p == Part(Some(Http(502)), [LoadTable(c.ref)], [])
      else if w.SpecMismatch? then p == Part(Some(Http(403)), [LoadTable(c.ref)], [PartitionSpecMismatch])
      else if w.StoreFailed? then p == Part(Some(Http(503)), [LoadTable(c.ref)], [PolicyEngineUnavailable])
      else if policy.stop.Some? then p == Part(policy.stop, [LoadTable(c.ref)] + policy.effects, policy.rejections)
      else p == Part(if send.stop.Some? then send.stop else Some(Http(200)),
        [LoadTable(c.ref)] + policy.effects + send.effects, policy.rejections + send.rejections)
  {
    hide PolicyPart, SendPart;
    var policy, send := PolicyPart(c.ref, s), SendPart(c, s);
    if ValidRef(c.ref) && s.load.Loaded? && Clear(w) && policy.stop.None? {
      assert [LoadTable(c.ref)] + (policy.effects + (send.effects + []))
        == [LoadTable(c.ref)] + policy.effects + send.effects;
    }
  }

  /** Everything `SendPart` does, case by case. */
  lemma Sends(c: Change, s: Script)
    ensures SendPart(c, s).rejections == []
    ensures SendPart(c, s).stop ==
      if s.commit.Conflict? then Some(Http(409))
      else if s.commit.CommitFailed? then Some(Http(502))
      else if s.approvedAudit.AuditPanicked? then Some(Panicked)
      else if s.commit.result.None? && Errs(s.approvedAudit) then Some(Panicked)
      else None
    ensures SendPart(c, s).effects ==
      [CommitTable(c.ref, c.request, s.commit.Accepted?)]
      + (if !s.commit.Accepted? then [] else [Audit(c.ref, Approved, s.approvedAudit)])
      + (if !Done(s) then [] else IngestPart(s).effects)
  {
  }

  /** The gate of one table of a transaction. */
  method GateTable(c: Change, s: Script) returns (p: Part)
    ensures p == GatePart(c, s)
  {
    hide PolicyPart;
    if !ValidRef(c.ref) {
      return Stop(400);
    }
    match s.load {
      case TableNotFound => return Part(Some(Http(404)), [LoadTable(c.ref)], []);
      case CredentialsExpired => return Part(Some(Http(401)), [LoadTable(c.ref)], []);
      case LoadFailed => return Part(Some(Http(502)), [LoadTable(c.ref)], []);
      case Loaded =>
    }
    var policy := EvaluatePolicies(c.ref, s);
    return Part(policy.stop, [LoadTable(c.ref)] + policy.effects, policy.rejections);
  }

  /** The transaction handler: gate every table, then forward every table. */
  method MultiTableCommitHandler(cs: seq<Change>, ss: seq<Script>)
      returns (p: Part, results: seq<Option<CommitResult>>)
    requires |cs| == |ss|
    ensures p == MultiPart(cs, ss)
    ensures cs == [] ==> p == Part(Some(Http(400)), [], [])
    ensures p.stop == Some(Http(200)) ==>
      |results| == |cs| && forall k :: 0 <= k < |cs| ==> ss[k].commit == Accepted(results[k])
  {
    hide GatePart, GateAll, ForwardAll, ForwardPart, Passes;
    results := [];
    if cs == [] {
      return Stop(400), [];
    }
    var effects, rejections := [], [];
    var approvedRefs := [];
    NothingGated(cs, ss);
    for i := 0 to |cs|
      invariant GateAll(cs, ss, i) == Part(None, effects, rejections)
      invariant approvedRefs == cs[..i]
    {
      var gate := GateTable(cs[i], ss[i]);
      OneGateMore(cs, ss, i);
      GatesStopAt(cs, ss, i + 1);
      GateStatus(cs[i], ss[i]);
      effects, rejections := effects + gate.effects, rejections + gate.rejections;
      if gate.stop.Some? {
        return Part(gate.stop, effects, rejections), [];
      }
      approvedRefs := approvedRefs + [cs[i]];
    }
    ghost var gated := GateAll(cs, ss, |cs|);
    for i := 0 to |approvedRefs|
      invariant ForwardAll(cs, ss, i).stop.None?
      invariant effects == gated.effects + ForwardAll(cs, ss, i).effects
      invariant rejections == gated.rejections + ForwardAll(cs, ss, i).rejections
      invariant |results| == i && forall k :: 0 <= k < i ==> ss[k].commit == Accepted(results[k])
    {
      OneForwardMore(cs, ss, i);
      ForwardsStopAt(cs, ss, i + 1);
      var c, s := approvedRefs[i], ss[i];
      effects := effects + [CommitTable(c.ref, c.request, s.commit.Accepted?)];
      match s.commit {
        case Conflict => return Part(Some(Http(409)), effects, rejections), results;
        case CommitFailed => return Part(Some(Http(502)), effects, rejections), results;
        case Accepted(result) =>
          results := results + [result];
          effects := effects + [Audit(c.ref, Approved, s.approvedAudit)];
          if s.approvedAudit.AuditPanicked? {
            return Part(Some(Panicked), effects, rejections), results;
          }
          if result.Some? && result.value.location != "" {
            effects := effects + [Ingest(result.value)];
          }
      }
    }
    return Part(Some(Http(200)), effects, rejections), results;
  }

  predicate Passes(c: Change, s: Script) {
    && ValidRef(c.ref)
    && s.load.Loaded?
    && s.policies.Answer?
    && forall d | d in s.policies.value :: d.Allow?
  }

  const GATE_REFUSALS: set<Status> :=
    {Http(400), Http(401), Http(403), Http(404), Http(502), Http(503), Panicked}

  lemma {:induction false} PoliciesStatus(ref: Ref, s: Script, ds: seq<Decision>, n: nat)
    requires n <= |ds|
    ensures
      var p := PoliciesPart(ref, s, ds, n).stop;
      if forall k :: 0 <= k < n ==> ds[k].Allow? then p.None?
      else p == Some(Http(503)) || p == Some(Http(403)) || p == Some(Panicked)
  {
    if n > 0 {
      PoliciesStatus(ref, s, ds, n - 1);
    }
  }

  /** A table passes its gate exactly when it can be loaded and every policy allows the commit. */
  lemma GateStatus(c: Change, s: Script)
    ensures GatePart(c, s).stop.None? <==> Passes(c, s)
    ensures forall x :: GatePart(c, s).stop == Some(x) ==> x in GATE_REFUSALS
  {
    hide PoliciesPart;
    if s.policies.Answer? {
      PoliciesStatus(c.ref, s, s.policies.value, |s.policies.value|);
    }
  }

  lemma NothingGated(cs: seq<Change>, ss: seq<Script>)
    requires |cs| == |ss|
    ensures GateAll(cs, ss, 0) == NOTHING && ForwardAll(cs, ss, 0) == NOTHING
  {
  }

  lemma OneGateMore(cs: seq<Change>, ss: seq<Script>, n: nat)
    requires n < |cs| == |ss| && GateAll(cs, ss, n).stop.None?
    ensures
      var p, q := GateAll(cs, ss, n), GatePart(cs[n], ss[n]);
      GateAll(cs, ss, n + 1) == Part(q.stop, p.effects + q.effects, p.rejections + q.rejections)
  {
    hide GatePart;
  }

  lemma {:induction false} GatesStopAt(cs: seq<Change>, ss: seq<Script>, n: nat)
    requires n <= |cs| == |ss|
    ensures GateAll(cs, ss, n).stop.Some? ==> GateAll(cs, ss, |cs|) == GateAll(cs, ss, n)
    decreases |cs| - n
  {
    hide GatePart;
    if n < |cs| {
      GatesStopAt(cs, ss, n + 1);
    }
  }

  /** What forwarding one table more does to an unfinished phase. */
  lemma OneForwardMore(cs: seq<Change>, ss: seq<Script>, n: nat)
    requires n < |cs| == |ss| && ForwardAll(cs, ss, n).stop.None?
    ensures
      var p, q, s := ForwardAll(cs, ss, n), ForwardAll(cs, ss, n + 1), ss[n];
      var sent := [CommitTable(cs[n].ref, cs[n].request, s.commit.Accepted?)];
      && q.rejections == p.rejections
      && q.stop == SendStop(s)
      && q.effects ==
           if !s.commit.Accepted? then p.effects + sent
           else if !Done(s) then p.effects + sent + [Audit(cs[n].ref, Approved, s.approvedAudit)]
           else p.effects + sent + [Audit(cs[n].ref, Approved, s.approvedAudit)] + IngestPart(s).effects
  {
  }

  lemma {:induction false} ForwardsStopAt(cs: seq<Change>, ss: seq<Script>, n: nat)
    requires n <= |cs| == |ss|
    ensures ForwardAll(cs, ss, n).stop.Some? ==> ForwardAll(cs, ss, |cs|) == ForwardAll(cs, ss, n)
    decreases |cs| - n
  {
    hide ForwardPart;
    if n < |cs| {
      ForwardsStopAt(cs, ss, n + 1);
    }
  }

  // ---- Nothing is forwarded unless every table passes ----

  predicate Forwards(x: Effect) {
    x.CommitTable? || x.Ingest? || (x.Audit? && x.kind.Approved?)
  }

  predicate HoldsBack(p: Part) {
    forall x | x in p.effects :: !Forwards(x)
  }

  lemma {:induction false} PoliciesHoldBack(ref: Ref, s: Script, ds: seq<Decision>, n: nat)
    requires n <= |ds|
    ensures HoldsBack(PoliciesPart(ref, s, ds, n))
  {
    if n > 0 {
      PoliciesHoldBack(ref, s, ds, n - 1);
    }
  }

  lemma GateHoldsBack(c: Change, s: Script)
    ensures HoldsBack(GatePart(c, s))
  {
    hide PoliciesPart;
    if s.policies.Answer? {
      PoliciesHoldBack(c.ref, s, s.policies.value, |s.policies.value|);
    }
  }

  /** The gate phase: it stops at the first table that does not pass, and forwards nothing. */
  lemma {:induction false} GatePhase(cs: seq<Change>, ss: seq<Script>, n: nat)
    requires n <= |cs| == |ss|
    ensures HoldsBack(GateAll(cs, ss, n))
    ensures GateAll(cs, ss, n).stop.None? <==> forall k :: 0 <= k < n ==> Passes(cs[k], ss[k])
    ensures forall x :: GateAll(cs, ss, n).stop == Some(x) ==> x in GATE_REFUSALS
  {
    hide GatePart, Passes;
    if n > 0 {
      GatePhase(cs, ss, n - 1);
      GateHoldsBack(cs[n - 1], ss[n - 1]);
      GateStatus(cs[n - 1], ss[n - 1]);
    }
  }

  /** Reject-all: one table that does not pass its gate keeps every table from being committed. */
  lemma RejectAll(cs: seq<Change>, ss: seq<Script>, k: nat)
    requires k < |cs| == |ss| && !Passes(cs[k], ss[k])
    ensures HoldsBack(MultiPart(cs, ss))
    ensures MultiPart(cs, ss).stop.Some? && MultiPart(cs, ss).stop.value in GATE_REFUSALS
  {
    hide GateAll, ForwardAll, Passes;
    GatePhase(cs, ss, |cs|);
    var p := GateAll(cs, ss, |cs|);
    assert p.stop.Some? && MultiPart(cs, ss) == p;
    assert p.stop == Some(p.stop.value);
  }

  /** The answer is that of the first table that does not pass, whatever the later ones would do. */
  lemma FirstRefusalDecides(cs: seq<Change>, ss: seq<Script>, k: nat)
    requires k < |cs| == |ss| && !Passes(cs[k], ss[k])
    requires forall j :: 0 <= j < k ==> Passes(cs[j], ss[j])
    ensures MultiPart(cs, ss).stop == GatePart(cs[k], ss[k]).stop
    ensures MultiPart(cs, ss).rejections == GatePart(cs[k], ss[k]).rejections
  {
    hide GatePart, ForwardAll, GateAll, Passes, Only;
    GatePhase(cs, ss, k);
    GateStatus(cs[k], ss[k]);
    OneGateMore(cs, ss, k);
    GatesStopAt(cs, ss, k + 1);
    RecordedGates(cs, ss, k);
  }

  // ---- Commits follow the order of the request ----

  /** How many tables from the front are forwarded without an incident. */
  function DoneRun(ss: seq<Script>): (m: nat)
    ensures m <= |ss|
    ensures forall k :: 0 <= k < m ==> Done(ss[k])
    ensures m < |ss| ==> !Done(ss[m])
  {
    if ss == [] || !Done(ss[0]) then 0 else 1 + DoneRun(ss[1..])
  }

  /** How many tables the catalog accepts: the run, and a last one whose audit panics. */
  function Accepts(ss: seq<Script>): (n: nat)
    ensures n <= |ss|
  {
    var m := DoneRun(ss);
    if m < |ss| && ss[m].commit.Accepted? then m + 1 else m
  }

  function Only(f: Effect -> bool, es: seq<Effect>): seq<Effect> {
    if es == [] then [] else (if f(es[0]) then [es[0]] else []) + Only(f, es[1..])
  }

  lemma OnlyFirst(f: Effect -> bool, x: Effect, es: seq<Effect>)
    ensures Only(f, [x] + es) == (if f(x) then [x] else []) + Only(f, es)
    ensures Only(f, [x]) == if f(x) then [x] else []
  {
    assert ([x] + es)[1..] == es;
  }

  lemma {:induction false} OnlyOfSum(f: Effect -> bool, a: seq<Effect>, b: seq<Effect>)
    ensures Only(f, a + b) == Only(f, a) + Only(f, b)
  {
    hide Only;
    if a == [] {
      assert a + b == b;
      OnlyNone(f, a);
    } else {
      OnlyOfSum(f, a[1..], b);
      assert a == [a[0]] + a[1..] && a + b == [a[0]] + (a[1..] + b);
      OnlyFirst(f, a[0], a[1..]);
      OnlyFirst(f, a[0], a[1..] + b);
    }
  }

  lemma {:induction false} OnlyNone(f: Effect -> bool, es: seq<Effect>)
    requires forall x | x in es :: !f(x)
    ensures Only(f, es) == []
  {
    if es != [] {
      OnlyNone(f, es[1..]);
    }
  }

  predicate IsCommit(x: Effect) {
    x.CommitTable?
  }

  predicate IsApproval(x: Effect) {
    x.Audit? && x.kind.Approved?
  }

  /** The upstream commits of the first tables; all but possibly the last are accepted. */
  function CommitCalls(cs: seq<Change>, ss: seq<Script>, n: nat): seq<Effect>
    requires n <= |cs| == |ss|
  {
    seq(n, k requires 0 <= k < n => CommitTable(cs[k].ref, cs[k].request, ss[k].commit.Accepted?))
  }

  function Approvals(cs: seq<Change>, ss: seq<Script>, n: nat): seq<Effect>
    requires n <= |cs| == |ss|
  {
    seq(n, k requires 0 <= k < n => Audit(cs[k].ref, Approved, ss[k].approvedAudit))
  }

  lemma NoCalls(cs: seq<Change>, ss: seq<Script>)
    requires |cs| == |ss|
    ensures CommitCalls(cs, ss, 0) == [] && Approvals(cs, ss, 0) == []
  {
  }

  lemma CallsLonger(cs: seq<Change>, ss: seq<Script>, n: nat)
    requires n < |cs| == |ss|
    ensures CommitCalls(cs, ss, n + 1) ==
      CommitCalls(cs, ss, n) + [CommitTable(cs[n].ref, cs[n].request, ss[n].commit.Accepted?)]
    ensures Approvals(cs, ss, n + 1) ==
      Approvals(cs, ss, n) + [Audit(cs[n].ref, Approved, ss[n].approvedAudit)]
  {
  }

  lemma {:induction false} ForwardPhase(cs: seq<Change>, ss: seq<Script>, n: nat)
    requires n <= |cs| == |ss|
    ensures
      var p, m := ForwardAll(cs, ss, n), DoneRun(ss);
      && Only(IsCommit, p.effects) == CommitCalls(cs, ss, if n <= m then n else m + 1)
      && Only(IsApproval, p.effects) == Approvals(cs, ss, if n <= m then n else Accepts(ss))
      && p.stop == (if n <= m then None else SendStop(ss[m]))
      && p.rejections == []
  {
    hide ForwardAll, DoneRun, Only, CommitCalls, Approvals, IngestPart;
    if n == 0 {
      NoCalls(cs, ss);
      NothingGated(cs, ss);
      OnlyNone(IsCommit, []);
      OnlyNone(IsApproval, []);
    } else {
      ForwardPhase(cs, ss, n - 1);
      if n - 1 <= DoneRun(ss) {
        OneForwardMore(cs, ss, n - 1);
        CallsLonger(cs, ss, n - 1);
        OneTableForwarded(ForwardAll(cs, ss, n - 1).effects, cs[n - 1], ss[n - 1]);
      } else {
        ForwardsStopAt(cs, ss, n - 1);
        ForwardsStopAt(cs, ss, n);
        StoppedStays(cs, ss, n);
      }
    }
  }

  lemma StoppedStays(cs: seq<Change>, ss: seq<Script>, n: nat)
    requires 0 < n <= |cs| == |ss| && ForwardAll(cs, ss, n - 1).stop.Some?
    ensures ForwardAll(cs, ss, n) == ForwardAll(cs, ss, n - 1)
  {
    hide ForwardPart;
  }

  /** What forwarding one table appends, read through the two filters. */
  lemma OneTableForwarded(before: seq<Effect>, c: Change, s: Script)
    ensures
      var sent := [CommitTable(c.ref, c.request, s.commit.Accepted?)];
      var recorded := if s.commit.Accepted? then [Audit(c.ref, Approved, s.approvedAudit)] else [];
      var after :=
        if !s.commit.Accepted? then before + sent
        else if !Done(s) then before + sent + recorded
        else before + sent + recorded + IngestPart(s).effects;
      && Only(IsCommit, after) == Only(IsCommit, before) + sent
      && Only(IsApproval, after) == Only(IsApproval, before) + recorded
  {
    hide Only;
    var sent := CommitTable(c.ref, c.request, s.commit.Accepted?);
    var recorded := Audit(c.ref, Approved, s.approvedAudit);
    var ingested := IngestPart(s).effects;
    OnlyNone(IsCommit, ingested);
    OnlyNone(IsApproval, ingested);
    ThreeMore(IsCommit, before, sent, recorded, ingested);
    ThreeMore(IsApproval, before, sent, recorded, ingested);
  }

  lemma ThreeMore(f: Effect -> bool, before: seq<Effect>, x: Effect, y: Effect, rest: seq<Effect>)
    requires Only(f, rest) == []
    ensures Only(f, before + [x]) == Only(f, before) + if f(x) then [x] else []
    ensures Only(f, before + [x] + [y]) == Only(f, before) + (if f(x) then [x] else []) + if f(y) then [y] else []
    ensures Only(f, before + [x] + [y] + rest) ==
      Only(f, before) + (if f(x) then [x] else []) + if f(y) then [y] else []
  {
    hide Only;
    OnlyOfSum(f, before, [x]);
    OnlyOfSum(f, before + [x], [y]);
    OnlyOfSum(f, before + [x] + [y], rest);
    OnlyFirst(f, x, []);
    OnlyFirst(f, y, []);
  }

  /**
   Once every table passes, the upstream calls are those of the request, in order, up to and
   including the first one the catalog refuses or whose audit panics; each accepted table gets
   exactly one APPROVED attempt.
   */
  lemma CommitsFollowRequestOrder(cs: seq<Change>, ss: seq<Script>)
    requires 0 < |cs| == |ss|
    requires forall k :: 0 <= k < |cs| ==> Passes(cs[k], ss[k])
    ensures
      var p, m := MultiPart(cs, ss), DoneRun(ss);
      && Only(IsCommit, p.effects) == CommitCalls(cs, ss, if m == |cs| then m else m + 1)
      && Only(IsApproval, p.effects) == Approvals(cs, ss, Accepts(ss))
      && p.stop == (if m == |cs| then Some(Http(200)) else SendStop(ss[m]))
  {
    hide GateAll, ForwardAll, Only, Passes, DoneRun;
    GatePhase(cs, ss, |cs|);
    ForwardPhase(cs, ss, |cs|);
    var gated, forwarded := GateAll(cs, ss, |cs|), ForwardAll(cs, ss, |cs|);
    OnlyOfSum(IsCommit, gated.effects, forwarded.effects);
    OnlyOfSum(IsApproval, gated.effects, forwarded.effects);
    OnlyNone(IsCommit, gated.effects);
    OnlyNone(IsApproval, gated.effects);
    assert MultiPart(cs, ss).effects == gated.effects + forwarded.effects;
  }

  // ---- Every new snapshot is ingested, and nothing else ----

  predicate IsIngest(x: Effect) {
    x.Ingest?
  }

  /** The catalog accepted the commit and named this snapshot, with its location. */
  predicate NamesSnapshot(s: Script, snapshot: CommitResult) {
    s.commit == Accepted(Some(snapshot)) && snapshot.location != ""
  }

  /** Ingest calls for the snapshots that the catalog named for the first `n` tables, in order. */
  function NewSnapshots(ss: seq<Script>, n: nat): seq<Effect>
    requires n <= |ss|
  {
    if n == 0 then []
    else
      NewSnapshots(ss, n - 1) + match ss[n - 1].commit {
        case Accepted(Some(result)) => if result.location == "" then [] else [Ingest(result)]
        case _ => []
      }
  }

  /** Three calls in a row: an accepted commit, its APPROVED attempt, and the ingest of what the catalog named. */
  predicate Ingests(c: Change, s: Script, es: seq<Effect>, i: nat) {
    && 2 <= i < |es| && es[i - 2] == CommitTable(c.ref, c.request, true)
    && es[i - 1] == Audit(c.ref, Approved, s.approvedAudit) && es[i].Ingest? && NamesSnapshot(s, es[i].snapshot)
  }

  /** Every ingest call stands behind the commit and the APPROVED attempt of its own table. */
  ghost predicate IngestsBehind(cs: seq<Change>, ss: seq<Script>, es: seq<Effect>)
    requires |cs| == |ss|
  {
    forall i :: 0 <= i < |es| && es[i].Ingest? ==> exists k :: 0 <= k < |cs| && Ingests(cs[k], ss[k], es, i)
  }

  lemma {:induction false} NewSnapshotsAre(ss: seq<Script>, n: nat, snapshot: CommitResult)
    requires n <= |ss|
    ensures Ingest(snapshot) in NewSnapshots(ss, n) <==> exists k :: 0 <= k < n && NamesSnapshot(ss[k], snapshot)
  {
    if n > 0 {
      NewSnapshotsAre(ss, n - 1, snapshot);
    }
  }

  lemma BehindMore(cs: seq<Change>, ss: seq<Script>, before: seq<Effect>, k: nat, more: seq<Effect>)
    requires k < |cs| == |ss| && IngestsBehind(cs, ss, before)
    requires forall i :: 0 <= i < |more| && more[i].Ingest? ==> Ingests(cs[k], ss[k], more, i)
    ensures IngestsBehind(cs, ss, before + more)
  {
    hide NamesSnapshot;
    var es := before + more;
    forall i | 0 <= i < |es| && es[i].Ingest? ensures exists k :: 0 <= k < |cs| && Ingests(cs[k], ss[k], es, i) {
      if i < |before| {
        assert before[i].Ingest?;
        var j :| 0 <= j < |cs| && Ingests(cs[j], ss[j], before, i);
        assert Ingests(cs[j], ss[j], es, i);
      } else {
        assert more[i - |before|].Ingest? && Ingests(cs[k], ss[k], more, i - |before|);
        assert Ingests(cs[k], ss[k], es, i);
      }
    }
  }

  lemma BehindQuiet(cs: seq<Change>, ss: seq<Script>, quiet: seq<Effect>, es: seq<Effect>)
    requires |cs| == |ss| && IngestsBehind(cs, ss, es)
    requires forall x | x in quiet :: !x.Ingest?
    ensures IngestsBehind(cs, ss, quiet + es)
  {
    hide NamesSnapshot;
    var all := quiet + es;
    assert forall i :: 0 <= i < |quiet| ==> all[i] in quiet;
    forall i | 0 <= i < |all| && all[i].Ingest? ensures exists k :: 0 <= k < |cs| && Ingests(cs[k], ss[k], all, i) {
      assert es[i - |quiet|].Ingest?;
      var j :| 0 <= j < |cs| && Ingests(cs[j], ss[j], es, i - |quiet|);
      assert Ingests(cs[j], ss[j], all, i);
    }
  }

  /** What forwarding one table appends, and that an ingest among it stands behind its commit and attempt. */
  lemma OneTableIngested(c: Change, s: Script) returns (more: seq<Effect>)
    ensures more ==
      [CommitTable(c.ref, c.request, s.commit.Accepted?)]
      + (if s.commit.Accepted? then [Audit(c.ref, Approved, s.approvedAudit)] else [])
      + (if Done(s) then IngestPart(s).effects else [])
    ensures forall i :: 0 <= i < |more| && more[i].Ingest? ==> Ingests(c, s, more, i)
    ensures Only(IsIngest, more) == match s.commit {
      case Accepted(Some(result)) =>
        if s.approvedAudit.AuditPanicked? || result.location == "" then [] else [Ingest(result)]
      case _ => []
    }
  {
    hide Only;
    var sent := CommitTable(c.ref, c.request, s.commit.Accepted?);
    var recorded := if s.commit.Accepted? then [Audit(c.ref, Approved, s.approvedAudit)] else [];
    var ingested := if Done(s) then IngestPart(s).effects else [];
    more := [sent] + recorded + ingested;
    OnlyOfSum(IsIngest, [sent] + recorded, ingested);
    OnlyNone(IsIngest, [sent] + recorded);
    OnlyNone(IsIngest, []);
    if ingested != [] {
      OnlyFirst(IsIngest, ingested[0], []);
    }
  }

  lemma {:induction false} ForwardIngests(cs: seq<Change>, ss: seq<Script>, n: nat)
    requires n <= |cs| == |ss|
    ensures
      var p, m := ForwardAll(cs, ss, n), DoneRun(ss);
      Only(IsIngest, p.effects) == NewSnapshots(ss, if n <= m then n else m) && IngestsBehind(cs, ss, p.effects)
  {
    hide ForwardAll, DoneRun, Only, IngestPart, Ingests;
    if n == 0 {
      NothingGated(cs, ss);
      OnlyNone(IsIngest, []);
    } else {
      ForwardIngests(cs, ss, n - 1);
      ForwardPhase(cs, ss, n - 1);
      var before, c, s := ForwardAll(cs, ss, n - 1), cs[n - 1], ss[n - 1];
      if n - 1 <= DoneRun(ss) {
        OneForwardMore(cs, ss, n - 1);
        var more := OneTableIngested(c, s);
        assert ForwardAll(cs, ss, n).effects == before.effects + more;
        OnlyOfSum(IsIngest, before.effects, more);
        BehindMore(cs, ss, before.effects, n - 1, more);
      } else {
        StoppedStays(cs, ss, n);
      }
    }
  }

  /**
   Once every table passes, the ingest calls are exactly those for the snapshots that the catalog named for
   the tables that were done, in the order of the request, each right behind the accepted commit and the
   APPROVED attempt of its table.
   */
  lemma IngestsFollowCommits(cs: seq<Change>, ss: seq<Script>)
    requires 0 < |cs| == |ss|
    requires forall k :: 0 <= k < |cs| ==> Passes(cs[k], ss[k])
    ensures
      var es, m := MultiPart(cs, ss).effects, DoneRun(ss);
      && Only(IsIngest, es) == NewSnapshots(ss, m)
      && (forall k :: 0 <= k < m && ss[k].commit.result.Some? && ss[k].commit.result.value.location != "" ==>
            Ingest(ss[k].commit.result.value) in es)
      && IngestsBehind(cs, ss, es)
  {
    hide GateAll, ForwardAll, Only, Passes, DoneRun, Ingests;
    GatePhase(cs, ss, |cs|);
    ForwardPhase(cs, ss, |cs|);
    ForwardIngests(cs, ss, |cs|);
    var gated, forwarded := GateAll(cs, ss, |cs|), ForwardAll(cs, ss, |cs|);
    OnlyOfSum(IsIngest, gated.effects, forwarded.effects);
    OnlyNone(IsIngest, gated.effects);
    BehindQuiet(cs, ss, gated.effects, forwarded.effects);
    var es := MultiPart(cs, ss).effects;
    assert es == gated.effects + forwarded.effects;
    forall k | 0 <= k < DoneRun(ss) && ss[k].commit.result.Some? && ss[k].commit.result.value.location != ""
      ensures Ingest(ss[k].commit.result.value) in es
    {
      NewSnapshotsAre(ss, DoneRun(ss), ss[k].commit.result.value);
      assert NamesSnapshot(ss[k], ss[k].commit.result.value);
      InOnly(IsIngest, es, Ingest(ss[k].commit.result.value));
    }
  }

  lemma {:induction false} InOnly(f: Effect -> bool, es: seq<Effect>, x: Effect)
    ensures x in Only(f, es) <==> x in es && f(x)
  {
    if es != [] {
      InOnly(f, es[1..], x);
    }
  }

  /** The one-table handler ingests exactly the snapshot named for a commit whose attempt returned, as its last call. */
  lemma SingleIngests(c: Change, s: Script, w: Coordinator)
    ensures
      var es := SinglePart(c, s, w).effects;
      if Passes(c, s) && Clear(w) && Done(s) && s.commit.result.Some? && s.commit.result.value.location != "" then
        && Only(IsIngest, es) == [Ingest(s.commit.result.value)]
        && Ingests(c, s, es, |es| - 1)
      else
        Only(IsIngest, es) == []
  {
    hide PolicyPart, SendPart, SinglePart, Only, Passes, IngestPart;
    SingleCases(c, s, w);
    Sends(c, s);
    OnlyNone(IsIngest, []);
    OnlyFirst(IsIngest, LoadTable(c.ref), []);
    if ValidRef(c.ref) && s.load.Loaded? {
      PassedPolicies(c, s);
      var policy, send := PolicyPart(c.ref, s).effects, SendPart(c, s).effects;
      PolicyHoldsBack(c, s);
      OnlyOfSum(IsIngest, [LoadTable(c.ref)], policy);
      OnlyOfSum(IsIngest, [LoadTable(c.ref)] + policy, send);
      OnlyNone(IsIngest, policy);
      var more := OneTableIngested(c, s);
      assert send == more;
      LastIngest(c, s);
    } else {
      PassesLoaded(c, s);
    }
  }

  lemma PassesLoaded(c: Change, s: Script)
    ensures Passes(c, s) ==> ValidRef(c.ref) && s.load.Loaded?
  {
  }

  lemma PolicyHoldsBack(c: Change, s: Script)
    ensures HoldsBack(PolicyPart(c.ref, s))
  {
    hide PoliciesPart;
    if s.policies.Answer? {
      PoliciesHoldBack(c.ref, s, s.policies.value, |s.policies.value|);
    }
  }

  lemma LastIngest(c: Change, s: Script)
    ensures Done(s) && s.commit.result.Some? && s.commit.result.value.location != "" ==>
      IngestPart(s).effects == [Ingest(s.commit.result.value)]
  {
  }

  /** 200 says that the request named some table, every table was committed and no audit panicked. */
  lemma OkIff(cs: seq<Change>, ss: seq<Script>)
    requires |cs| == |ss|
    ensures MultiPart(cs, ss).stop == Some(Http(200)) <==>
      cs != [] && forall k :: 0 <= k < |cs| ==> Passes(cs[k], ss[k]) && Done(ss[k])
  {
    hide GateAll, ForwardAll, Passes, DoneRun;
    if cs != [] {
      if k :| 0 <= k < |cs| && !Passes(cs[k], ss[k]) {
        RejectAll(cs, ss, k);
      } else {
        CommitsFollowRequestOrder(cs, ss);
      }
    }
  }

  // ---- Denials and the audit trail ----

  predicate IsRejection(x: Effect) {
    x.Audit? && x.kind.Rejected?
  }

  /**
   There is at most one REJECTED attempt; there is one exactly if a denial was counted, and then its
   outcome decides the status and the counters.  403 has no other source.
   */
  predicate Recorded(p: Part) {
    var attempts := Only(IsRejection, p.effects);
    && |attempts| == (if PolicyDenied in p.rejections then 1 else 0)
    && (p.stop == Some(Http(403)) ==> PolicyDenied in p.rejections)
    && (forall x | x in attempts :: x.Audit? && Decides(x.answer, p))
    && (p.stop == Some(Http(503)) <==> PolicyEngineUnavailable in p.rejections)
    && (p.stop.None? ==> p.rejections == [])
  }

  predicate Decides(a: AuditAnswer, p: Part) {
    p.stop == Some(DenialStatus(a)) && p.rejections == DenialReasons(a)
  }

  lemma RecordedThen(p: Part, q: Part)
    requires Recorded(p) && Recorded(q)
    ensures Recorded(Then(p, q))
  {
    if p.stop.None? {
      OnlyOfSum(IsRejection, p.effects, q.effects);
      assert [] + q.rejections == q.rejections;
    }
  }

  lemma RecordedDecision(ref: Ref, s: Script, policy: nat, d: Decision)
    ensures Recorded(DecisionPart(ref, s, policy, d))
  {
    hide Only;
    OnlyFirst(IsRejection, Evaluate(ref, policy), []);
    OnlyFirst(IsRejection, Audit(ref, Rejected, s.rejectedAudit), []);
    OnlyNone(IsRejection, []);
    var call := Call(Evaluate(ref, policy));
    RecordedThen(call, NOTHING);
    RecordedThen(call, DenyPart(ref, s));
    RecordedThen(call, Reject(503, [PolicyEngineUnavailable]));
  }

  lemma {:induction false} RecordedPolicies(ref: Ref, s: Script, ds: seq<Decision>, n: nat)
    requires n <= |ds|
    ensures Recorded(PoliciesPart(ref, s, ds, n))
  {
    hide Recorded, DecisionPart, Then;
    if n == 0 {
      RecordedNothing();
    } else {
      RecordedPolicies(ref, s, ds, n - 1);
      RecordedDecision(ref, s, n - 1, ds[n - 1]);
      RecordedThen(PoliciesPart(ref, s, ds, n - 1), DecisionPart(ref, s, n - 1, ds[n - 1]));
    }
  }

  lemma RecordedNothing()
    ensures Recorded(NOTHING)
  {
  }

  lemma RecordedPolicy(ref: Ref, s: Script)
    ensures Recorded(PolicyPart(ref, s))
  {
    hide PoliciesPart;
    OnlyNone(IsRejection, [LoadPolicies(ref)]);
    assert Recorded(Call(LoadPolicies(ref)));
    if s.policies.Answer? {
      RecordedPolicies(ref, s, s.policies.value, |s.policies.value|);
      RecordedThen(Call(LoadPolicies(ref)), PoliciesPart(ref, s, s.policies.value, |s.policies.value|));
    }
  }

  lemma RecordedLoad(ref: Ref, s: Script)
    ensures Recorded(LoadPart(ref, s))
  {
    OnlyNone(IsRejection, [LoadTable(ref)]);
  }

  lemma RecordedGate(c: Change, s: Script)
    ensures Recorded(GatePart(c, s))
  {
    hide Recorded, LoadPart, PolicyPart;
    if ValidRef(c.ref) {
      RecordedLoad(c.ref, s);
      RecordedPolicy(c.ref, s);
      RecordedThen(LoadPart(c.ref, s), PolicyPart(c.ref, s));
    } else {
      RecordedStop(400);
    }
  }

  lemma RecordedStop(code: nat)
    requires code != 403 && code != 503
    ensures Recorded(Stop(code))
  {
  }

  lemma {:induction false} RecordedGates(cs: seq<Change>, ss: seq<Script>, n: nat)
    requires n <= |cs| == |ss|
    ensures Recorded(GateAll(cs, ss, n))
  {
    hide Recorded, GatePart;
    if n == 0 {
      RecordedNothing();
    } else {
      RecordedGates(cs, ss, n - 1);
      RecordedGate(cs[n - 1], ss[n - 1]);
      RecordedThen(GateAll(cs, ss, n - 1), GatePart(cs[n - 1], ss[n - 1]));
    }
  }

  /** Forwarding records no denial and rejects nothing. */
  lemma RecordedForward(c: Change, s: Script)
    ensures Recorded(ForwardPart(c, s)) && Recorded(SendPart(c, s))
  {
    hide Only, IngestPart;
    OnlyFirst(IsRejection, CommitTable(c.ref, c.request, s.commit.Accepted?), []);
    OnlyFirst(IsRejection, Audit(c.ref, Approved, s.approvedAudit), []);
    RecordedIngest(s);
    RecordedThen(ApprovedPart(c.ref, s), IngestPart(s));
    RecordedThen(LoggedApprovedPart(c.ref, s), IngestPart(s));
    RecordedThen(CommitPart(c, s), Then(ApprovedPart(c.ref, s), IngestPart(s)));
    RecordedThen(CommitPart(c, s), Then(LoggedApprovedPart(c.ref, s), IngestPart(s)));
  }

  lemma RecordedIngest(s: Script)
    ensures Recorded(IngestPart(s))
  {
    OnlyNone(IsRejection, IngestPart(s).effects);
  }

  lemma {:induction false} RecordedForwards(cs: seq<Change>, ss: seq<Script>, n: nat)
    requires n <= |cs| == |ss|
    ensures Recorded(ForwardAll(cs, ss, n))
  {
    hide Recorded, ForwardPart;
    if n == 0 {
      RecordedNothing();
    } else {
      RecordedForwards(cs, ss, n - 1);
      RecordedForward(cs[n - 1], ss[n - 1]);
      RecordedThen(ForwardAll(cs, ss, n - 1), ForwardPart(cs[n - 1], ss[n - 1]));
    }
  }

  lemma RecordedTransaction(cs: seq<Change>, ss: seq<Script>)
    requires |cs| == |ss|
    ensures Recorded(MultiPart(cs, ss))
  {
    hide Recorded, GateAll, ForwardAll;
    RecordedGates(cs, ss, |cs|);
    RecordedForwards(cs, ss, |cs|);
    RecordedStop(200);
    RecordedStop(400);
    RecordedThen(GateAll(cs, ss, |cs|), ForwardAll(cs, ss, |cs|));
    RecordedThen(Then(GateAll(cs, ss, |cs|), ForwardAll(cs, ss, |cs|)), Stop(200));
  }

  /** A REJECTED attempt with this outcome was made. */
  predicate RejectedWith(p: Part, a: AuditAnswer) {
    exists x | x in Only(IsRejection, p.effects) :: x.Audit? && x.answer == a
  }

  lemma RecordedMeans(p: Part)
    requires Recorded(p)
    ensures |Only(IsRejection, p.effects)| <= 1
    ensures p.stop == Some(Http(403)) <==> RejectedWith(p, Persisted)
    ensures RejectedWith(p, Persisted) ==> p.rejections == [PolicyDenied]
    ensures RejectedWith(p, PersistedThenErred) || RejectedWith(p, AuditFailed) ==>
      p.stop == Some(Http(503)) && p.rejections == [PolicyDenied, PolicyEngineUnavailable]
    ensures RejectedWith(p, AuditPanicked) ==> p.stop == Some(Panicked) && p.rejections == [PolicyDenied]
    ensures forall x | x in Only(IsRejection, p.effects) ::
      x.Audit? && (Written(x.answer) && p.stop != Some(Http(403)) <==> RejectedWith(p, PersistedThenErred))
  {
    hide Only, IsRejection;
    var attempts := Only(IsRejection, p.effects);
    if attempts != [] {
      assert attempts[0] in attempts && attempts == [attempts[0]];
    }
  }

  /**
   A transaction makes at most one REJECTED attempt.  It answers 403 exactly when the attempt persisted
   its record and said so; a persisted record goes with another status exactly when the audit call erred
   behind its commit, and that status is 503.
   */
  lemma DeniedIffRecorded(cs: seq<Change>, ss: seq<Script>)
    requires |cs| == |ss|
    ensures var p := MultiPart(cs, ss);
      && Recorded(p) && |Only(IsRejection, p.effects)| <= 1
      && (p.stop == Some(Http(403)) <==> RejectedWith(p, Persisted))
      && (RejectedWith(p, Persisted) ==> p.rejections == [PolicyDenied])
      && (RejectedWith(p, PersistedThenErred) || RejectedWith(p, AuditFailed) ==>
            p.stop == Some(Http(503)) && p.rejections == [PolicyDenied, PolicyEngineUnavailable])
      && (RejectedWith(p, AuditPanicked) ==> p.stop == Some(Panicked) && p.rejections == [PolicyDenied])
      && forall x | x in Only(IsRejection, p.effects) ::
           x.Audit? && (Written(x.answer) && p.stop != Some(Http(403)) <==> RejectedWith(p, PersistedThenErred))
  {
    hide Recorded, MultiPart, Only, RejectedWith;
    RecordedTransaction(cs, ss);
    RecordedMeans(MultiPart(cs, ss));
  }

  /** The first decision that is not an allow is a deny. */
  predicate DeniesFirst(ds: seq<Decision>, n: nat)
    requires n <= |ds|
  {
    exists k :: 0 <= k < n && ds[k].Deny? && forall j :: 0 <= j < k ==> ds[j].Allow?
  }

  /** The table gets as far as its policies, and they deny it. */
  predicate Denied(c: Change, s: Script) {
    ValidRef(c.ref) && s.load.Loaded? && s.policies.Answer? && DeniesFirst(s.policies.value, |s.policies.value|)
  }

  lemma {:induction false} PoliciesDeny(ref: Ref, s: Script, ds: seq<Decision>, n: nat)
    requires n <= |ds|
    ensures PolicyDenied in PoliciesPart(ref, s, ds, n).rejections <==> DeniesFirst(ds, n)
    ensures DeniesFirst(ds, n) ==> PoliciesPart(ref, s, ds, n).stop == Some(DenialStatus(s.rejectedAudit))
  {
    if n > 0 {
      PoliciesDeny(ref, s, ds, n - 1);
      PoliciesStatus(ref, s, ds, n - 1);
      RecordedPolicies(ref, s, ds, n - 1);
      DeniesLater(ds, n);
    }
  }

  lemma DeniesLater(ds: seq<Decision>, n: nat)
    requires 0 < n <= |ds|
    ensures DeniesFirst(ds, n) <==>
      DeniesFirst(ds, n - 1) || (ds[n - 1].Deny? && forall j :: 0 <= j < n - 1 ==> ds[j].Allow?)
  {
    if DeniesFirst(ds, n) && !DeniesFirst(ds, n - 1) {
      var k :| 0 <= k < n && ds[k].Deny? && forall j :: 0 <= j < k ==> ds[j].Allow?;
    }
  }

  lemma GateDenies(c: Change, s: Script)
    ensures PolicyDenied in GatePart(c, s).rejections <==> Denied(c, s)
    ensures Denied(c, s) ==> GatePart(c, s).stop == Some(DenialStatus(s.rejectedAudit))
  {
    hide PoliciesPart, DeniesFirst;
    if s.policies.Answer? {
      PoliciesDeny(c.ref, s, s.policies.value, |s.policies.value|);
    }
  }

  /** In terms of the tables: a denial is attempted exactly for the first that does not pass, if policies deny it. */
  lemma FirstDenialDecides(cs: seq<Change>, ss: seq<Script>, k: nat)
    requires k < |cs| == |ss| && !Passes(cs[k], ss[k])
    requires forall j :: 0 <= j < k ==> Passes(cs[j], ss[j])
    ensures |Only(IsRejection, MultiPart(cs, ss).effects)| == (if Denied(cs[k], ss[k]) then 1 else 0)
    ensures Denied(cs[k], ss[k]) ==>
      var a := ss[k].rejectedAudit;
      MultiPart(cs, ss).stop ==
      Some(if a.Persisted? then Http(403) else if a.AuditPanicked? then Panicked else Http(503))
    ensures !Denied(cs[k], ss[k]) ==> MultiPart(cs, ss).stop != Some(Http(403))
  {
    hide GatePart, MultiPart, Only, Passes, Denied;
    FirstRefusalDecides(cs, ss, k);
    GateDenies(cs[k], ss[k]);
    RecordedTransaction(cs, ss);
  }

  /** In the one-table handler a 403 has a second source, which leaves no record: the spec mismatch. */
  lemma SingleDeniedIffRecorded(c: Change, s: Script, w: Coordinator)
    ensures
      if ValidRef(c.ref) && s.load.Loaded? && w.SpecMismatch? then
        SinglePart(c, s, w) == Part(Some(Http(403)), [LoadTable(c.ref)], [PartitionSpecMismatch])
      else
        var p := SinglePart(c, s, w);
        && Recorded(p) && |Only(IsRejection, p.effects)| <= 1
        && (p.stop == Some(Http(403)) <==> RejectedWith(p, Persisted))
        && (RejectedWith(p, Persisted) ==> p.rejections == [PolicyDenied])
        && (RejectedWith(p, PersistedThenErred) || RejectedWith(p, AuditFailed) ==>
              p.stop == Some(Http(503)) && p.rejections == [PolicyDenied, PolicyEngineUnavailable])
        && (RejectedWith(p, AuditPanicked) ==> p.stop == Some(Panicked) && p.rejections == [PolicyDenied])
  {
    hide Recorded, PolicyPart, SendPart, Then, SinglePart, Only, RejectedWith;
    SingleCases(c, s, w);
    if ValidRef(c.ref) && s.load.Loaded? && Clear(w) {
      var load, policy, send := Call(LoadTable(c.ref)), PolicyPart(c.ref, s), SendPart(c, s);
      RecordedRefusal(c.ref, 404);
      RecordedPolicy(c.ref, s);
      RecordedForward(c, s);
      RecordedStop(200);
      RecordedThen(send, Stop(200));
      RecordedThen(policy, Then(send, Stop(200)));
      RecordedThen(load, Then(policy, Then(send, Stop(200))));
      SingleChain(c, s, w);
    } else {
      RecordedStop(400);
      RecordedRefusal(c.ref, 401);
      RecordedRefusal(c.ref, 404);
      RecordedRefusal(c.ref, 502);
    }
    if !(ValidRef(c.ref) && s.load.Loaded? && w.SpecMismatch?) {
      RecordedMeans(SinglePart(c, s, w));
    }
  }

  lemma SingleChain(c: Change, s: Script, w: Coordinator)
    requires ValidRef(c.ref) && s.load.Loaded? && Clear(w)
    ensures SinglePart(c, s, w) ==
      Then(Call(LoadTable(c.ref)), Then(PolicyPart(c.ref, s), Then(SendPart(c, s), Stop(200))))
  {
    hide PolicyPart, SendPart;
    assert Then(LoadPart(c.ref, s), CoordinatorPart(w)) == Call(LoadTable(c.ref));
  }

  lemma RecordedRefusal(ref: Ref, code: nat)
    requires code != 403 && code != 503
    ensures Recorded(Call(LoadTable(ref)))
    ensures Recorded(Part(Some(Http(code)), [LoadTable(ref)], []))
    ensures Recorded(Part(Some(Http(503)), [LoadTable(ref)], [PolicyEngineUnavailable]))
  {
    OnlyNone(IsRejection, [LoadTable(ref)]);
  }

  // ---- The two handlers agree on one table ----

  predicate Panics(c: Change, s: Script) {
    Passes(c, s) && s.commit == Accepted(None) && Errs(s.approvedAudit)
  }

  /** A transaction over one table, case by case. */
  lemma OneTableCases(c: Change, s: Script)
    ensures
      var p, policy, forward := MultiPart([c], [s]), PolicyPart(c.ref, s), ForwardPart(c, s);
      if !ValidRef(c.ref) then p == Part(Some(Http(400)), [], [])
      else if s.load.TableNotFound? then p == Part(Some(Http(404)), [LoadTable(c.ref)], [])
      else if s.load.CredentialsExpired? then p == Part(Some(Http(401)), [LoadTable(c.ref)], [])
      else if s.load.LoadFailed? then p == Part(Some(Http(502)), [LoadTable(c.ref)], [])
      else if policy.stop.Some? then p == Part(policy.stop, [LoadTable(c.ref)] + policy.effects, policy.rejections)
      else p == Part(if forward.stop.Some? then forward.stop else Some(Http(200)),
        [LoadTable(c.ref)] + policy.effects + forward.effects, policy.rejections + forward.rejections)
  {
    hide PolicyPart, ForwardPart, GatePart, MultiPart;
    OneTable(c, s);
    GateCases(c, s);
  }

  lemma GateCases(c: Change, s: Script)
    ensures
      var p, policy := GatePart(c, s), PolicyPart(c.ref, s);
      if !ValidRef(c.ref) then p == Part(Some(Http(400)), [], [])
      else if s.load.TableNotFound? then p == Part(Some(Http(404)), [LoadTable(c.ref)], [])
      else if s.load.CredentialsExpired? then p == Part(Some(Http(401)), [LoadTable(c.ref)], [])
      else if s.load.LoadFailed? then p == Part(Some(Http(502)), [LoadTable(c.ref)], [])
      else p == Part(policy.stop, [LoadTable(c.ref)] + policy.effects, policy.rejections)
  {
    hide PolicyPart;
  }

  lemma OneTable(c: Change, s: Script)
    ensures MultiPart([c], [s]) == Then(Then(GatePart(c, s), ForwardPart(c, s)), Stop(200))
  {
    hide GatePart, ForwardPart;
    NothingGated([c], [s]);
    assert GateAll([c], [s], 1) == GatePart(c, s);
    assert ForwardAll([c], [s], 1) == ForwardPart(c, s);
  }

  /** The policy stretch always makes a call, so a handler stopped before it can be told apart. */
  lemma PoliciesAreLoaded(ref: Ref, s: Script)
    ensures |PolicyPart(ref, s).effects| > 0
  {
  }

  /**
   A transaction over one table makes the same calls, counter bumps and answer as the one-table
   handler exactly when the write coordinator does not stop the latter and the latter does not
   read the nil result of an accepted commit whose APPROVED audit failed.
   */
  lemma HandlersAgreeIff(c: Change, s: Script, w: Coordinator)
    ensures SinglePart(c, s, w) == MultiPart([c], [s]) <==>
      !ValidRef(c.ref) || !s.load.Loaded? || (Clear(w) && !Panics(c, s))
    ensures ValidRef(c.ref) && s.load.Loaded? && Clear(w) && Panics(c, s) ==>
      SinglePart(c, s, w) == MultiPart([c], [s]).(stop := Some(Panicked))
  {
    hide PolicyPart, SendPart, ForwardPart, SinglePart, MultiPart, LoadPart, Then, IngestPart;
    SingleCases(c, s, w);
    OneTableCases(c, s);
    Sends(c, s);
    Forwarded(c, s);
    if ValidRef(c.ref) && s.load.Loaded? {
      PassedPolicies(c, s);
    }
    PoliciesAreLoaded(c.ref, s);
  }

  /** Behind a successful load the gate is the policies. */
  lemma PassedPolicies(c: Change, s: Script)
    requires ValidRef(c.ref) && s.load.Loaded?
    ensures PolicyPart(c.ref, s).stop.None? <==> Passes(c, s)
  {
    hide PolicyPart, Passes;
    GateStatus(c, s);
  }

  /** Both handlers forward with the same calls. */
  lemma Forwarded(c: Change, s: Script)
    ensures ForwardPart(c, s).effects == SendPart(c, s).effects
    ensures ForwardPart(c, s).rejections == SendPart(c, s).rejections
    ensures ForwardPart(c, s).stop == SendStop(s)
  {
    Sends(c, s);
  }
}
