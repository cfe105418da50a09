/** Claimable tasks of the tower: claims, leases, review gates, progress and retries.

    Every request handler is split into the database statements it runs. Each statement
    is one atomic `Step`; what a handler remembers between two of its statements is kept
    in `inflight`, so a sequence of steps is any interleaving of any number of requests.
    A step that is not enabled changes nothing. */
module TaskLeases {
  import opened Options
  import opened DependencyGraph

  const LEASE_TTL_SECS := 120
  const MAX_ATTEMPTS := 3

  type AgentId = string
  type RequestId = nat
  type GateId = nat
  type MissionId = nat

  /** A v4 UUID minted for one claim. */
  datatype Lease = Lease(uuid: nat)

  datatype Status = Pending | Ready | Claimed | Running | Blocked | WaitingReview | Finished | Failed | Cancelled

  /** `claim_policy`: NULL, 'broadcast', or anything else. */
  datatype Policy = Unset | Broadcast | Exclusive

  /** A row with kind = 'claimable'. `requeues` counts the sweeps that made it ready again. */
  datatype Task = Task(
    mission: MissionId, status: Status, policy: Policy, dependsOn: seq<TaskId>,
    claimer: Option<AgentId>, lease: Option<Lease>, expires: Option<int>, version: nat,
    attempt: nat, maxAttempts: nat, finalizedBy: Option<AgentId>, createdBy: string, requeues: nat)

  datatype GateStatus = GatePending | Approved | Rejected | Expired

  datatype Gate = Gate(task: TaskId, owner: string, status: GateStatus)

  datatype ProgressEvent = ProgressEvent(seqNo: int, agent: AgentId, summary: string)

  /** `subject` with and without its "agent:" prefix, and the full-trust/admin escapes. */
  datatype Actor = Actor(subject: string, subjectId: AgentId, bypass: bool, admin: bool)

  /** What a handler has read and not yet acted upon. */
  datatype Inflight =
    | ClaimRead(task: TaskId, agent: AgentId, policy: Policy)
    | DispatchRead(task: TaskId)
    | UnblockStart(mission: MissionId, finished: TaskId)
    | UnblockScan(todo: set<TaskId>)
    | UnblockArmed(task: TaskId, todo: set<TaskId>)

  datatype Action = DoHeartbeat | DoProgress | DoComplete | DoFail | DoBlock | DoUnblock | DoCancel | DoGate

  /** History of the fenced effects: claims that won, and requests that were let through. */
  datatype LogEntry =
    | Issued(task: TaskId, lease: Lease, agent: AgentId, exclusive: bool)
    | Acted(task: TaskId, presented: Option<Lease>, identity: AgentId, bypass: bool, action: Action)

  datatype Tower = Tower(
    now: int, tasks: map<TaskId, Task>, gates: map<GateId, Gate>, progress: map<TaskId, seq<ProgressEvent>>,
    inflight: map<RequestId, Inflight>, issued: set<Lease>, log: seq<LogEntry>)

  datatype Step =
    | Tick(secs: nat)
    | Insert(id: TaskId, mission: MissionId, policy: Policy, deps: seq<TaskId>, ready: bool, creator: string)
    | ClaimFetch(req: RequestId, task: TaskId, agent: AgentId)
    | ClaimWrite(req: RequestId, minted: Lease)
    | McpClaim(task: TaskId, agent: AgentId, minted: Lease, seconds: int)
    | Heartbeat(actor: Actor, task: TaskId, lease: Option<Lease>)
    | AppendProgress(actor: Actor, task: TaskId, heldLease: Lease, summary: string)
    | Complete(req: RequestId, actor: Actor, task: TaskId, lease: Option<Lease>, onBehalf: Option<AgentId>)
    | Fail(actor: Actor, task: TaskId, lease: Option<Lease>, onBehalf: Option<AgentId>)
    | Block(actor: Actor, task: TaskId, lease: Option<Lease>)
    | Unblock(actor: Actor, task: TaskId)
    | Cancel(actor: Actor, task: TaskId)
    | Retry(task: TaskId)
    | Sweep(mission: MissionId)
    | CreateGate(actor: Actor, gate: GateId, task: TaskId)
    | ResolveGate(req: RequestId, actor: Actor, gate: GateId, task: TaskId, approve: bool)
    | DispatchFetch(req: RequestId, actor: Actor, task: TaskId)
    | DispatchWrite(req: RequestId)
    | UnblockSelect(req: RequestId)
    | UnblockCheck(req: RequestId, task: TaskId)
    | UnblockWrite(req: RequestId)

  // ---------- SQL fragments ----------

  /** `column = $param`: not true when either side is NULL. */
  predicate SqlEq<T(==)>(column: Option<T>, param: Option<T>) {
    column.Some? && column == param
  }

  predicate Fresh(row: Task, now: int) {
    row.policy.Broadcast? || (row.expires.Some? && row.expires.value >= now)
  }

  /** The fence shared by heartbeat and progress: a live claim, the lease or a bypass,
      and freshness, which only a broadcast task is excused from. */
  predicate FenceLive(row: Task, lease: Option<Lease>, bypass: bool, now: int) {
    row.status in {Claimed, Running} && (SqlEq(row.lease, lease) || bypass) && Fresh(row, now)
  }

  /** The fence shared by complete and fail. */
  predicate FenceFinal(row: Task, identity: AgentId, lease: Option<Lease>, bypass: bool, now: int) {
    && row.status in {Claimed, Running, WaitingReview}
    && (SqlEq(row.claimer, Some(identity)) || ((SqlEq(row.lease, lease) || bypass) && Fresh(row, now)))
  }

  predicate HasPendingGate(s: Tower, t: TaskId) {
    exists g :: g in s.gates && s.gates[g].task == t && s.gates[g].status.GatePending?
  }

  predicate AnyRejected(gates: map<GateId, Gate>, t: TaskId) {
    exists g :: g in gates && gates[g].task == t && gates[g].status.Rejected?
  }

  predicate AllResolved(gates: map<GateId, Gate>, t: TaskId) {
    && (exists g :: g in gates && gates[g].task == t)
    && forall g :: g in gates && gates[g].task == t ==> gates[g].status in {Approved, Expired}
  }

  /** `SELECT status FROM task WHERE id = ANY(deps)` returns one row per distinct existing
      id; the handler compares that count with the length of the list. */
  predicate DepsFinished(tasks: map<TaskId, Task>, deps: seq<TaskId>) {
    var found := set d | d in deps && d in tasks;
    |found| == |deps| && forall d :: d in found ==> tasks[d].status.Finished?
  }

  /** `COALESCE(MAX(seq), -1) + 1` */
  function NextSeq(events: seq<ProgressEvent>): int {
    MaxSeq(events) + 1
  }

  function MaxSeq(events: seq<ProgressEvent>): int {
    if events == [] then -1
    else
      var rest := MaxSeq(events[..|events| - 1]);
      var last := events[|events| - 1].seqNo;
      if |events| == 1 || last > rest then last else rest
  }

  function Clear(row: Task): Task {
    row.(claimer := None, lease := None, expires := None)
  }

  // ---------- Statements ----------

  function Put(s: Tower, t: TaskId, row: Task): Tower {
    s.(tasks := s.tasks[t := row])
  }

  function PutLogged(s: Tower, t: TaskId, row: Task, entry: LogEntry): Tower {
    s.(tasks := s.tasks[t := row], log := s.log + [entry])
  }

  function Effective(a: Actor, onBehalf: Option<AgentId>): AgentId {
    if a.bypass then onBehalf.GetOr(a.subjectId) else a.subjectId
  }

  /** The row of a new task: ready at once without dependencies. */
  function NewTask(m: MissionId, p: Policy, deps: seq<TaskId>, ready: bool, creator: string): Task {
    Task(m, if ready || deps == [] then Ready else Pending, p, deps, None, None, None, 0, 0, MAX_ATTEMPTS, None,
         creator, 0)
  }

  /** Every dependency must name a task of the mission. */
  predicate Accepts(s: Tower, id: TaskId, m: MissionId, deps: seq<TaskId>) {
    id !in s.tasks && forall d :: d in deps ==> d in s.tasks && s.tasks[d].mission == m
  }

  /** `ready` is what an earlier read of the dependencies' statuses decided. */
  function DoInsert(s: Tower, id: TaskId, m: MissionId, p: Policy, deps: seq<TaskId>, ready: bool,
                    creator: string): Tower {
    if Accepts(s, id, m, deps) then Put(s, id, NewTask(m, p, deps, ready, creator)) else s
  }

  /** First statement of a claim: refused unless the row reads 'ready' now. */
  function DoClaimFetch(s: Tower, r: RequestId, t: TaskId, agent: AgentId): Tower {
    if r !in s.inflight && t in s.tasks && s.tasks[t].status.Ready?
    then s.(inflight := s.inflight[r := ClaimRead(t, agent, s.tasks[t].policy)])
    else s
  }

  /** The row of a claim just won. */
  function Won(row: Task, status: Status, lease: Lease, agent: AgentId, until: int): Task {
    row.(status := status, claimer := Some(agent), lease := Some(lease), expires := Some(until))
  }

  /** Second statement of a claim. A task read as broadcast is written without looking at
      its status again; any other is locked and re-checked. */
  function DoClaimWrite(s: Tower, r: RequestId, lease: Lease): Tower {
    if r in s.inflight && s.inflight[r].ClaimRead? && lease !in s.issued then
      var ClaimRead(t, agent, policy) := s.inflight[r];
      if t in s.tasks && (policy.Broadcast? || s.tasks[t].status.Ready?) then
        var row := s.tasks[t];
        var until := s.now + LEASE_TTL_SECS;
        var won := if policy.Broadcast? then Won(row, Running, lease, agent, until)
                   else Won(row, Claimed, lease, agent, until).(version := row.version + 1);
        s.(tasks := s.tasks[t := won], inflight := s.inflight - {r}, issued := s.issued + {lease},
           log := s.log + [Issued(t, lease, agent, !policy.Broadcast?)])
      else s.(inflight := s.inflight - {r})
    else s
  }

  function Clamp(x: int, lo: int, hi: int): int {
    if x < lo then lo else if x > hi then hi else x
  }

  /** The MCP claim is a single compare-and-swap on the status, for every policy. */
  function DoMcpClaim(s: Tower, t: TaskId, agent: AgentId, lease: Lease, seconds: int): Tower {
    if t in s.tasks && s.tasks[t].status.Ready? && lease !in s.issued then
      var row := s.tasks[t];
      var won := Won(row, Claimed, lease, agent, s.now + Clamp(seconds, 60, 3600)).(version := row.version + 1);
      s.(tasks := s.tasks[t := won], issued := s.issued + {lease}, log := s.log + [Issued(t, lease, agent, true)])
    else s
  }

  function DoHeartbeatStep(s: Tower, a: Actor, t: TaskId, lease: Option<Lease>): Tower {
    if t in s.tasks && FenceLive(s.tasks[t], lease, a.bypass, s.now) then
      PutLogged(s, t, s.tasks[t].(status := Running, expires := Some(s.now + LEASE_TTL_SECS)),
                Acted(t, lease, a.subjectId, a.bypass, DoHeartbeat))
    else s
  }

  function EventsOf(s: Tower, t: TaskId): seq<ProgressEvent> {
    if t in s.progress then s.progress[t] else []
  }

  function DoAppendProgress(s: Tower, a: Actor, t: TaskId, lease: Lease, summary: string): Tower {
    if t in s.tasks && FenceLive(s.tasks[t], Some(lease), a.bypass, s.now) then
      var event := ProgressEvent(NextSeq(EventsOf(s, t)), a.subjectId, summary);
      s.(progress := s.progress[t := EventsOf(s, t) + [event]],
         log := s.log + [Acted(t, Some(lease), a.subjectId, a.bypass, DoProgress)])
    else s
  }

  /** One statement decides between finishing and waiting for review; a finished task then
      starts the scan for dependents. */
  function DoCompleteStep(s: Tower, r: RequestId, a: Actor, t: TaskId, lease: Option<Lease>,
                          onBehalf: Option<AgentId>): Tower {
    var identity := Effective(a, onBehalf);
    if r !in s.inflight && t in s.tasks && FenceFinal(s.tasks[t], identity, lease, a.bypass, s.now) then
      var row := s.tasks[t];
      var pending := HasPendingGate(s, t);
      var next := if pending then row.(status := WaitingReview)
                  else Clear(row).(status := Finished, finalizedBy := Some(row.claimer.GetOr(identity)));
      s.(tasks := s.tasks[t := next],
         inflight := if pending then s.inflight else s.inflight[r := UnblockStart(row.mission, t)],
         log := s.log + [Acted(t, lease, identity, a.bypass, DoComplete)])
    else s
  }

  function DoFailStep(s: Tower, a: Actor, t: TaskId, lease: Option<Lease>, onBehalf: Option<AgentId>): Tower {
    var identity := Effective(a, onBehalf);
    if t in s.tasks && FenceFinal(s.tasks[t], identity, lease, a.bypass, s.now) then
      var row := s.tasks[t];
      PutLogged(s, t, Clear(row).(status := Failed, finalizedBy := Some(row.claimer.GetOr(identity))),
                Acted(t, lease, identity, a.bypass, DoFail))
    else s
  }

  /** Blocking releases the lease and keeps the claimer. */
  function DoBlockStep(s: Tower, a: Actor, t: TaskId, lease: Option<Lease>): Tower {
    if t in s.tasks && s.tasks[t].status in {Claimed, Running}
       && (SqlEq(s.tasks[t].claimer, Some(a.subjectId)) || a.bypass || SqlEq(s.tasks[t].lease, lease))
    then PutLogged(s, t, s.tasks[t].(status := Blocked, lease := None, expires := None),
                   Acted(t, lease, a.subjectId, a.bypass, DoBlock))
    else s
  }

  function DoUnblockStep(s: Tower, a: Actor, t: TaskId): Tower {
    if t in s.tasks && s.tasks[t].status.Blocked? && (SqlEq(s.tasks[t].claimer, Some(a.subjectId)) || a.bypass)
    then PutLogged(s, t, s.tasks[t].(status := Ready), Acted(t, None, a.subjectId, a.bypass, DoUnblock))
    else s
  }

  function DoCancelStep(s: Tower, a: Actor, t: TaskId): Tower {
    if t in s.tasks && s.tasks[t].status !in {Finished, Cancelled}
       && (SqlEq(s.tasks[t].claimer, Some(a.subjectId)) || a.bypass)
    then
      var row := s.tasks[t];
      PutLogged(s, t, Clear(row).(status := Cancelled, finalizedBy := Some(row.finalizedBy.GetOr(a.subjectId))),
                Acted(t, None, a.subjectId, a.bypass, DoCancel))
    else s
  }

  function DoRetry(s: Tower, t: TaskId): Tower {
    if t in s.tasks && s.tasks[t].status in {Failed, Cancelled}
    then Put(s, t, Clear(s.tasks[t]).(status := Ready, finalizedBy := None))
    else s
  }

  /** `claim_policy != 'broadcast'` is not true of a NULL policy. */
  predicate Sweepable(row: Task, m: MissionId, now: int) {
    && row.mission == m && row.status in {Claimed, Running} && row.policy.Exclusive?
    && row.expires.Some? && row.expires.value < now
  }

  function Expire(row: Task): Task {
    var next := Clear(row).(attempt := row.attempt + 1);
    if row.attempt + 1 >= row.maxAttempts then next.(status := Failed)
    else next.(status := Ready, requeues := row.requeues + 1)
  }

  function DoSweep(s: Tower, m: MissionId): Tower {
    s.(tasks := map t | t in s.tasks :: if Sweepable(s.tasks[t], m, s.now) then Expire(s.tasks[t]) else s.tasks[t])
  }

  function DoCreateGate(s: Tower, a: Actor, g: GateId, t: TaskId): Tower {
    if g !in s.gates && t in s.tasks && s.tasks[t].status in {Claimed, Running, WaitingReview}
       && (SqlEq(s.tasks[t].claimer, Some(a.subjectId)) || a.bypass)
    then s.(gates := s.gates[g := Gate(t, a.subject, GatePending)],
            log := s.log + [Acted(t, None, a.subjectId, a.bypass, DoGate)])
    else s
  }

  /** Resolving the gate and moving the task happen in one transaction. */
  function DoResolveGate(s: Tower, r: RequestId, a: Actor, g: GateId, t: TaskId, approve: bool): Tower {
    if r !in s.inflight && g in s.gates && s.gates[g].task == t && s.gates[g].status.GatePending?
       && (s.gates[g].owner == a.subject || a.admin)
    then
      var gates := s.gates[g := s.gates[g].(status := if approve then Approved else Rejected)];
      if t in s.tasks && s.tasks[t].status.WaitingReview? && (AnyRejected(gates, t) || AllResolved(gates, t)) then
        var row := s.tasks[t];
        var rejected := AnyRejected(gates, t);
        var next := Clear(row).(status := if rejected then Failed else Finished,
                                finalizedBy := Some(row.claimer.GetOr(row.finalizedBy.GetOr(a.subjectId))));
        s.(tasks := s.tasks[t := next], gates := gates,
           inflight := if rejected then s.inflight else s.inflight[r := UnblockStart(row.mission, t)])
      else s.(gates := gates)
    else s
  }

  function DoDispatchFetch(s: Tower, r: RequestId, a: Actor, t: TaskId): Tower {
    if r !in s.inflight && t in s.tasks && s.tasks[t].status.Ready? && (s.tasks[t].createdBy == a.subject || a.admin)
    then s.(inflight := s.inflight[r := DispatchRead(t)])
    else s
  }

  /** The second statement of a dispatch carries no precondition at all. */
  function DoDispatchWrite(s: Tower, r: RequestId): Tower {
    if r in s.inflight && s.inflight[r].DispatchRead? then
      var t := s.inflight[r].task;
      s.(tasks := if t in s.tasks then s.tasks[t := s.tasks[t].(status := Finished)] else s.tasks,
         inflight := s.inflight - {r})
    else s
  }

  predicate Waits(row: Task, m: MissionId, on: TaskId) {
    row.mission == m && row.status in {Pending, Blocked} && on in row.dependsOn
  }

  function DoUnblockSelect(s: Tower, r: RequestId): Tower {
    if r in s.inflight && s.inflight[r].UnblockStart? then
      var UnblockStart(m, done) := s.inflight[r];
      s.(inflight := s.inflight[r := UnblockScan(set c | c in s.tasks && Waits(s.tasks[c], m, done))])
    else s
  }

  /** Reads the statuses of one candidate's dependencies. */
  function DoUnblockCheck(s: Tower, r: RequestId, c: TaskId): Tower {
    if r in s.inflight && s.inflight[r].UnblockScan? && c in s.inflight[r].todo && c in s.tasks then
      var rest := s.inflight[r].todo - {c};
      var next := if DepsFinished(s.tasks, s.tasks[c].dependsOn) then UnblockArmed(c, rest) else UnblockScan(rest);
      s.(inflight := s.inflight[r := next])
    else s
  }

  /** Writes 'ready' to the candidate, whatever became of it since it was selected. */
  function DoUnblockWrite(s: Tower, r: RequestId): Tower {
    if r in s.inflight && s.inflight[r].UnblockArmed? then
      var UnblockArmed(c, rest) := s.inflight[r];
      s.(tasks := if c in s.tasks then s.tasks[c := s.tasks[c].(status := Ready)] else s.tasks,
         inflight := s.inflight[r := UnblockScan(rest)])
    else s
  }

  function Apply(s: Tower, step: Step): Tower {
    match step
    case Tick(secs) => s.(now := s.now + secs)
    case Insert(id, m, p, deps, ready, who) => DoInsert(s, id, m, p, deps, ready, who)
    case ClaimFetch(r, t, agent) => DoClaimFetch(s, r, t, agent)
    case ClaimWrite(r, lease) => DoClaimWrite(s, r, lease)
    case McpClaim(t, agent, lease, secs) => DoMcpClaim(s, t, agent, lease, secs)
    case Heartbeat(a, t, lease) => DoHeartbeatStep(s, a, t, lease)
    case AppendProgress(a, t, lease, summary) => DoAppendProgress(s, a, t, lease, summary)
    case Complete(r, a, t, lease, forAgent) => DoCompleteStep(s, r, a, t, lease, forAgent)
    case Fail(a, t, lease, forAgent) => DoFailStep(s, a, t, lease, forAgent)
    case Block(a, t, lease) => DoBlockStep(s, a, t, lease)
    case Unblock(a, t) => DoUnblockStep(s, a, t)
    case Cancel(a, t) => DoCancelStep(s, a, t)
    case Retry(t) => DoRetry(s, t)
    case Sweep(m) => DoSweep(s, m)
    case CreateGate(a, g, t) => DoCreateGate(s, a, g, t)
    case ResolveGate(r, a, g, t, approve) => DoResolveGate(s, r, a, g, t, approve)
    case DispatchFetch(r, a, t) => DoDispatchFetch(s, r, a, t)
    case DispatchWrite(r) => DoDispatchWrite(s, r)
    case UnblockSelect(r) => DoUnblockSelect(s, r)
    case UnblockCheck(r, c) => DoUnblockCheck(s, r, c)
    case UnblockWrite(r) => DoUnblockWrite(s, r)
  }

  /** Any interleaving of any requests, from `s` on. */
  function Run(s: Tower, steps: seq<Step>): Tower
    decreases |steps|
  {
    if steps == [] then s else Run(Apply(s, steps[0]), steps[1..])
  }

  const EMPTY_TOWER := Tower(0, map[], map[], map[], map[], {}, [])
}
