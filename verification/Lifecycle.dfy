/**
  * The book-keeping of FlowSpec paths announced through GoBGP: per rule key the state of its path, per victim a fence
  * raised by UNBAN and a token held by a refresh in progress. Every operation runs under one mutex.
  */
module Lifecycle {
  import opened Octets
  import opened Prefix
  import opened FlowSpecRule

  type Uuid = seq<Octet>

  datatype Key = Key(victim: Ip, protocol: Option<Octet>, port: Option<Word16>)

  predicate Lower(a: Option<int>, b: Option<int>) {
    b.Some? && (a.None? || a.value < b.value)
  }

  /** The order of the table: by victim, protocol and port, where none comes first. */
  predicate Before(a: Key, b: Key) {
    || a.victim < b.victim
    || (a.victim == b.victim && (Lower(a.protocol, b.protocol) || (a.protocol == b.protocol && Lower(a.port, b.port))))
  }

  datatype PathState = Announcing | Installed | WithdrawRequested | Withdrawing

  /** A rule with the state of its path; the path's UUID is empty until GoBGP has answered. */
  datatype Entry = Entry(state: PathState, rule: Rule, uuid: Uuid)

  datatype Table = Table(rules: map<Key, Entry>, fenced: set<Ip>, refreshing: set<Ip>)

  datatype AnnounceCompletion = NowInstalled | WithdrawRequired | AnnounceIgnored

  datatype WithdrawCompletion = Erased | RetryPending | WithdrawIgnored

  datatype Request = Request(key: Key, rule: Rule)

  datatype WithdrawRequest = WithdrawRequest(key: Key, rule: Rule, uuid: Uuid)

  datatype PlanAction = AddPortRules | EscalateProtocolOnly | ProtocolOnlyCovers | NoNewPortRules | WithdrawInProgress

  /** A plan counts the port rules there are and those to add, and announces at most one rule per key. */
  datatype Plan = Plan(action: PlanAction, existing: nat, added: nat, announce: map<Key, Rule>)

  /** A rule has a key only when it is for one host and names at most one protocol and, with it, one port. */
  function RuleKey(r: Rule): Option<Key> {
    if r.destination.None? || r.destination.value.length != 32 || |r.protocols| > 1 || |r.destinationPorts| > 1 then None
    else if r.destinationPorts != [] && r.protocols == [] then None
    else
      Some(Key(r.destination.value.address,
               if r.protocols == [] then None else Some(r.protocols[0]),
               if r.destinationPorts == [] then None else Some(r.destinationPorts[0])))
  }

  // ----- operations as functions of the table -----

  ghost predicate HasRules(t: Table, victim: Ip) {
    exists k :: k in t.rules && k.victim == victim
  }

  /** The fence falls once the victim has neither rules nor a refresh in progress. */
  ghost function ClearFence(t: Table, victim: Ip): Table {
    if HasRules(t, victim) || victim in t.refreshing then t else t.(fenced := t.fenced - {victim})
  }

  predicate MayAnnounce(t: Table, k: Key) {
    k.victim !in t.fenced && k !in t.rules
  }

  function BeginAnnounce(t: Table, k: Key, r: Rule): Table {
    if MayAnnounce(t, k) then t.(rules := t.rules[k := Entry(Announcing, r, [])]) else t
  }

  predicate MayBeginCapture(t: Table, victim: Ip) {
    victim !in t.fenced && victim !in t.refreshing
  }

  function BeginCapture(t: Table, victim: Ip): Table {
    if MayBeginCapture(t, victim) then t.(refreshing := t.refreshing + {victim}) else t
  }

  ghost function FinishCapture(t: Table, victim: Ip): Table {
    ClearFence(t.(refreshing := t.refreshing - {victim}), victim)
  }

  /** The path is still being added: GoBGP has not answered yet. */
  predicate AddPending(e: Entry) {
    e.uuid == [] && (e.state == Announcing || e.state == WithdrawRequested)
  }

  ghost function FailAnnounce(t: Table, k: Key): Table {
    if k in t.rules && (t.rules[k].state == Announcing || AddPending(t.rules[k])) then
      ClearFence(t.(rules := t.rules - {k}), k.victim)
    else t
  }

  function AnnounceOutcome(t: Table, k: Key, uuid: Uuid): AnnounceCompletion {
    if k !in t.rules || uuid == [] then AnnounceIgnored
    else if t.rules[k].state == Announcing then NowInstalled
    else if t.rules[k].state == WithdrawRequested && t.rules[k].uuid == [] then WithdrawRequired
    else AnnounceIgnored
  }

  function CompleteAnnounce(t: Table, k: Key, uuid: Uuid): Table {
    match AnnounceOutcome(t, k, uuid)
    case NowInstalled => t.(rules := t.rules[k := t.rules[k].(state := Installed, uuid := uuid)])
    case WithdrawRequired => t.(rules := t.rules[k := t.rules[k].(state := Withdrawing, uuid := uuid)])
    case AnnounceIgnored => t
  }

  predicate MustDelete(e: Entry) {
    e.state == Installed || (e.state == WithdrawRequested && e.uuid != [])
  }

  /** A withdrawal reaches an entry: an unanswered add is marked, an installed path is to be deleted now. */
  function Requested(e: Entry): Entry {
    if e.state == Announcing then e.(state := WithdrawRequested)
    else if MustDelete(e) then e.(state := Withdrawing)
    else e
  }

  function RequestAll(t: Table, keys: set<Key>): Table {
    t.(rules := map k | k in t.rules :: if k in keys then Requested(t.rules[k]) else t.rules[k])
  }

  function ToDelete(t: Table, keys: set<Key>): map<Key, Uuid> {
    map k | k in t.rules && k in keys && MustDelete(t.rules[k]) :: t.rules[k].uuid
  }

  /** The add is still under way, so its delete has to wait for the answer. */
  predicate MustWait(e: Entry) {
    e.state == Announcing || (e.state == WithdrawRequested && e.uuid == [])
  }

  function WaitingKeys(t: Table, keys: set<Key>): set<Key> {
    set k | k in t.rules && k in keys && MustWait(t.rules[k])
  }

  /** The keys whose paths are being deleted already. */
  function LeavingKeys(t: Table, keys: set<Key>): set<Key> {
    set k | k in t.rules && k in keys && t.rules[k].state == Withdrawing
  }

  function VictimKeys(t: Table, victim: Ip): set<Key> {
    set k | k in t.rules && k.victim == victim
  }

  ghost function BeginWithdraw(t: Table, victim: Ip): Table {
    ClearFence(RequestAll(t.(fenced := t.fenced + {victim}), VictimKeys(t, victim)), victim)
  }

  function WithdrawOutcome(t: Table, k: Key, uuid: Uuid, success: bool): WithdrawCompletion {
    if k !in t.rules || t.rules[k].state != Withdrawing || t.rules[k].uuid != uuid then WithdrawIgnored
    else if success then Erased
    else RetryPending
  }

  ghost function CompleteWithdraw(t: Table, k: Key, uuid: Uuid, success: bool): Table {
    match WithdrawOutcome(t, k, uuid, success)
    case WithdrawIgnored => t
    case Erased => ClearFence(t.(rules := t.rules - {k}), k.victim)
    case RetryPending => t.(rules := t.rules[k := t.rules[k].(state := WithdrawRequested)])
  }

  predicate SameProtocol(k: Key, only: Key) {
    k.victim == only.victim && k.protocol.Some? && k.protocol == only.protocol
  }

  function PortKeys(t: Table, only: Key): set<Key> {
    set k | k in t.rules && SameProtocol(k, only) && k.port.Some?
  }

  predicate Covered(t: Table, only: Key) {
    exists k :: k in t.rules && SameProtocol(k, only) && k.port.None?
  }

  predicate IsNewPort(t: Table, only: Key, k: Key) {
    SameProtocol(k, only) && k.port.Some? && k !in t.rules
  }

  /** The first request for each new port. */
  function NewPorts(t: Table, only: Key, requests: seq<Request>): map<Key, Rule>
    decreases |requests|
  {
    if requests == [] then map[]
    else
      var n := |requests| - 1;
      var before := NewPorts(t, only, requests[..n]);
      var q := requests[n];
      if IsNewPort(t, only, q.key) && q.key !in before then before[q.key := q.rule] else before
  }

  function RefreshPlan(t: Table, only: Request, requests: seq<Request>, maxPorts: nat): Plan {
    var ports := NewPorts(t, only.key, requests);
    var existing := |PortKeys(t, only.key)|;
    if only.key.victim in t.fenced then Plan(WithdrawInProgress, 0, 0, map[])
    else if Covered(t, only.key) then Plan(ProtocolOnlyCovers, 0, 0, map[])
    else if ports == map[] then Plan(NoNewPortRules, existing, 0, map[])
    else if existing + |ports| > maxPorts then Plan(EscalateProtocolOnly, existing, |ports|, map[only.key := only.rule])
    else Plan(AddPortRules, existing, |ports|, ports)
  }

  /** Announced rules take their place at once; a key already present keeps its entry. */
  function Reserve(t: Table, announce: map<Key, Rule>): Table {
    t.(rules := (map k | k in announce :: Entry(Announcing, announce[k], [])) + t.rules)
  }

  predicate MayCleanUp(t: Table, only: Key) {
    only in t.rules && t.rules[only].state == Installed && only.victim !in t.fenced
  }

  function CleanUp(t: Table, only: Key): Table {
    if MayCleanUp(t, only) then RequestAll(t, PortKeys(t, only)) else t
  }
}
