/** The pairing notifier: subscribers, the requests already announced, and the poll. Every
    command and every poll reads the stored state, changes it and writes it back as one step. */
module PairNotify {
  import opened Wrappers
  import opened JsText
  import opened Runs

  const MAX_SEEN_AGE_MS: int := 24 * 60 * 60 * 1000

  datatype Mode = Persistent | Once

  datatype Target = Target(to: string, accountId: Option<string>, messageThreadId: Option<int>)

  datatype Subscription = Subscription(target: Target, mode: Mode, addedAtMs: int)

  /** The time stamp is absent or an integer number of milliseconds. */
  datatype Request = Request(requestId: string, ts: Option<int>)

  datatype State = State(subscribers: seq<Subscription>, notified: map<string, int>)

  function Key(t: Target): string {
    t.to + "|" + (if t.accountId.Some? then t.accountId.value else "") + "|"
    + (if t.messageThreadId.Some? then IntToString(t.messageThreadId.value) else "")
  }

  // ---------------------------------------------------------------- reading the stored state

  function NormalTarget(t: Target): Target {
    var account := if t.accountId.Some? then JsTrim(t.accountId.value) else "";
    Target(JsTrim(t.to), if account == "" then None else Some(account), t.messageThreadId)
  }

  function NormalSubscribers(subs: seq<Subscription>): seq<Subscription> {
    if subs == [] then []
    else
      var t := NormalTarget(subs[0].target);
      (if t.to == "" then [] else [subs[0].(target := t)]) + NormalSubscribers(subs[1..])
  }

  /** What reading the file makes of it. */
  function Read(stored: State): State {
    State(NormalSubscribers(stored.subscribers),
          map id | id in stored.notified && JsTrim(id) != "" && stored.notified[id] > 0 :: stored.notified[id])
  }

  predicate IsNormal(s: Subscription) {
    NormalTarget(s.target) == s.target && s.target.to != ""
  }

  predicate AllNormal(subs: seq<Subscription>) {
    forall i :: 0 <= i < |subs| ==> IsNormal(subs[i])
  }

  lemma {:induction false} ReadIsNormal(subs: seq<Subscription>)
    ensures AllNormal(NormalSubscribers(subs))
  {
    if subs != [] {
      ReadIsNormal(subs[1..]);
    }
  }

  lemma {:induction false} NormalUnchanged(subs: seq<Subscription>)
    requires AllNormal(subs)
    ensures NormalSubscribers(subs) == subs
  {
    if subs != [] {
      assert IsNormal(subs[0]);
      assert AllNormal(subs[1..]) by {
        forall i | 0 <= i < |subs| - 1
          ensures IsNormal(subs[1..][i])
        {
          assert subs[1..][i] == subs[i + 1];
        }
      }
      hide AllNormal;
      NormalUnchanged(subs[1..]);
      assert subs == [subs[0]] + subs[1..];
    }
  }

  // ---------------------------------------------------------------- commands

  /** Where a command comes from; blank names are passed over, the account is kept as it is. */
  datatype Context = Context(senderId: string, from: string, to: string, accountId: string,
    messageThreadId: Option<int>)

  function ResolveTarget(ctx: Context): Option<Target> {
    var to := if JsTrim(ctx.senderId) != "" then JsTrim(ctx.senderId)
              else if JsTrim(ctx.from) != "" then JsTrim(ctx.from) else JsTrim(ctx.to);
    if to == "" then None
    else Some(Target(to, if ctx.accountId == "" then None else Some(ctx.accountId), ctx.messageThreadId))
  }

  function FindKey(subs: seq<Subscription>, key: string): (r: Option<nat>)
    ensures r.Some? ==> r.value < |subs| && Key(subs[r.value].target) == key
    ensures r.Some? ==> forall i :: 0 <= i < r.value ==> Key(subs[i].target) != key
    ensures r.None? ==> forall i :: 0 <= i < |subs| ==> Key(subs[i].target) != key
  {
    if subs == [] then None
    else if Key(subs[0].target) == key then Some(0)
    else
      var r := FindKey(subs[1..], key);
      assert forall i :: 1 <= i < |subs| ==> subs[i] == subs[1..][i - 1];
      if r.None? then None else Some(r.value + 1)
  }

  /** The subscribers with the target added, or its mode changed; None when nothing changes. */
  function Upsert(subs: seq<Subscription>, t: Target, mode: Mode, now: int): Option<seq<Subscription>> {
    var index := FindKey(subs, Key(t));
    if index.None? then Some(subs + [Subscription(t, mode, now)])
    else if subs[index.value].mode == mode then None
    else Some(subs[index.value := Subscription(t, mode, now)])
  }

  function Removed(subs: seq<Subscription>, t: Target): Option<seq<Subscription>> {
    var index := FindKey(subs, Key(t));
    if index.None? then None else Some(subs[..index.value] + subs[index.value + 1..])
  }

  // ---------------------------------------------------------------- the poll

  /** An attempt to tell subscriber number `subscriber` about a request, and whether it succeeded. */
  datatype Send = Send(requestId: string, subscriber: nat, delivered: bool)

  function RequestTimestamp(r: Request): Option<int> {
    if r.ts.Some? && r.ts.value > 0 then r.ts else None
  }

  predicate ShouldNotify(s: Subscription, r: Request) {
    s.mode.Persistent? || (RequestTimestamp(r).Some? && RequestTimestamp(r).value >= s.addedAtMs)
  }

  /** Whether the send about pending request i to subscriber j succeeds. */
  type Channel = (nat, nat) -> bool

  function SendsFor(subs: seq<Subscription>, r: Request, i: nat, j: nat, ok: Channel): seq<Send>
    requires j <= |subs|
    decreases |subs| - j
  {
    if j == |subs| then []
    else (if ShouldNotify(subs[j], r) then [Send(r.requestId, j, ok(i, j))] else []) + SendsFor(subs, r, i, j + 1, ok)
  }

  predicate AnyDelivered(sends: seq<Send>) {
    exists k :: 0 <= k < |sends| && sends[k].delivered
  }

  lemma NoneDelivered()
    ensures !AnyDelivered([])
  {
  }

  lemma AnyDeliveredSnoc(sends: seq<Send>, s: Send)
    ensures AnyDelivered(sends + [s]) <==> AnyDelivered(sends) || s.delivered
  {
    assert forall k :: 0 <= k < |sends| ==> (sends + [s])[k] == sends[k];
    assert (sends + [s])[|sends|] == s;
  }

  predicate IsAnnounced(notified: map<string, int>, id: string) {
    id in notified && notified[id] != 0
  }

  datatype Round = Round(sends: seq<Send>, notified: map<string, int>)

  /** The pending requests from number i on, each announced unless it already was. */
  function Announce(subs: seq<Subscription>, notified: map<string, int>, pending: seq<Request>, i: nat, now: int,
          ok: Channel): Round
    requires i <= |pending|
    decreases |pending| - i
  {
    if i == |pending| then Round([], notified)
    else if IsAnnounced(notified, pending[i].requestId) then Announce(subs, notified, pending, i + 1, now, ok)
    else
      var sends := SendsFor(subs, pending[i], i, 0, ok);
      var notified' := if AnyDelivered(sends) then notified[pending[i].requestId := now] else notified;
      var rest := Announce(subs, notified', pending, i + 1, now, ok);
      Round(sends + rest.sends, rest.notified)
  }

  predicate IsPending(pending: seq<Request>, id: string) {
    exists i :: 0 <= i < |pending| && pending[i].requestId == id
  }

  function Prune(notified: map<string, int>, pending: seq<Request>, now: int): map<string, int> {
    map id | id in notified && IsPending(pending, id) && now - notified[id] <= MAX_SEEN_AGE_MS :: notified[id]
  }

  /** The keys of the one-shot subscribers that some send reached. */
  function ReachedOnce(subs: seq<Subscription>, sends: seq<Send>): set<string> {
    set k | 0 <= k < |sends| && sends[k].delivered && sends[k].subscriber < |subs|
      && subs[sends[k].subscriber].mode.Once?
      :: Key(subs[sends[k].subscriber].target)
  }

  function Without(subs: seq<Subscription>, keys: set<string>): seq<Subscription> {
    if subs == [] then []
    else (if Key(subs[0].target) in keys then [] else [subs[0]]) + Without(subs[1..], keys)
  }

  datatype Outcome = Outcome(stored: State, sends: seq<Send>)

  function Poll(stored: State, pending: seq<Request>, now: int, ok: Channel): Outcome {
    var state := Read(stored);
    var round := Announce(state.subscribers, Prune(state.notified, pending, now), pending, 0, now, ok);
    var after := State(Without(state.subscribers, ReachedOnce(state.subscribers, round.sends)), round.notified);
    Outcome(if after == state then stored else after, round.sends)
  }

  // ---------------------------------------------------------------- runs

  datatype Event =
    | PollTick(pending: seq<Request>, now: int, ok: Channel)
    | On(ctx: Context, now: int)
    | Off(ctx: Context)
    | ArmOnce(ctx: Context, now: int)

  function Changed(stored: State, subs: Option<seq<Subscription>>): Outcome {
    Outcome(if subs.Some? then Read(stored).(subscribers := subs.value) else stored, [])
  }

  function Step(stored: State, e: Event): Outcome {
    match e
    case PollTick(pending, now, ok) => Poll(stored, pending, now, ok)
    case On(ctx, now) =>
      var t := ResolveTarget(ctx);
      if t.None? then Outcome(stored, [])
      else Changed(stored, Upsert(Read(stored).subscribers, t.value, Persistent, now))
    case Off(ctx) =>
      var t := ResolveTarget(ctx);
      if t.None? then Outcome(stored, []) else Changed(stored, Removed(Read(stored).subscribers, t.value))
    case ArmOnce(ctx, now) =>
      var t := ResolveTarget(ctx);
      if t.None? then Outcome(stored, []) else Changed(stored, Upsert(Read(stored).subscribers, t.value, Once, now))
  }

  function StoredStep(): (State, Event) -> State {
    (s: State, e: Event) => Step(s, e).stored
  }

  /** The stored state after the first k events. */
  function StateAt(stored: State, events: seq<Event>, k: nat): State
    requires k <= |events|
  {
    StateAfter(StoredStep(), stored, events, k)
  }

  function SendsAt(stored: State, events: seq<Event>, k: nat): seq<Send>
    requires k < |events|
  {
    Step(StateAt(stored, events, k), events[k]).sends
  }

  // ---------------------------------------------------------------- the notifier as code

  class Notifier {
    var stored: State

    constructor (stored: State)
      ensures this.stored == stored
    {
      this.stored := stored;
    }

    method PruneNotified(notified: map<string, int>, pending: seq<Request>, now: int) returns (kept: map<string, int>)
      ensures kept == Prune(notified, pending, now)
    {
      kept := notified;
      var todo := notified.Keys;
      while todo != {}
        invariant todo <= notified.Keys && kept.Keys <= notified.Keys && todo <= kept.Keys
        invariant forall id :: id in kept ==> kept[id] == notified[id]
        invariant forall id :: id in notified && id !in todo ==>
                    (id in kept <==> IsPending(pending, id) && now - notified[id] <= MAX_SEEN_AGE_MS)
        decreases todo
      {
        var id :| id in todo;
        todo := todo - {id};
        if !IsPending(pending, id) || now - notified[id] > MAX_SEEN_AGE_MS {
          kept := kept - {id};
        }
      }
    }

    /** One request to every subscriber that should hear of it. */
    method SendRequest(subs: seq<Subscription>, r: Request, i: nat, ok: Channel)
            returns (sends: seq<Send>, delivered: bool)
      ensures sends == SendsFor(subs, r, i, 0, ok) && delivered == AnyDelivered(sends)
    {
      hide ShouldNotify, AnyDelivered;
      sends, delivered := [], false;
      assert !AnyDelivered([]) by { NoneDelivered(); }
      for j := 0 to |subs|
        invariant sends + SendsFor(subs, r, i, j, ok) == SendsFor(subs, r, i, 0, ok)
        invariant delivered == AnyDelivered(sends)
      {
        if !ShouldNotify(subs[j], r) {
          continue;
        }
        var sent := ok(i, j);
        AnyDeliveredSnoc(sends, Send(r.requestId, j, sent));
        sends := sends + [Send(r.requestId, j, sent)];
        delivered := delivered || sent;
      }
    }

    method PollPending(pending: seq<Request>, now: int, ok: Channel) returns (sends: seq<Send>)
      modifies this
      ensures Outcome(stored, sends) == Poll(old(stored), pending, now, ok)
    {
      var state := Read(stored);
      var notified := PruneNotified(state.notified, pending, now);
      var subscribers := state.subscribers;
      sends := [];
      ghost var round := Announce(subscribers, notified, pending, 0, now, ok);
      if |subscribers| > 0 {
        for i := 0 to |pending|
          invariant stored == old(stored)
          invariant var rest := Announce(subscribers, notified, pending, i, now, ok);
                    sends + rest.sends == round.sends && rest.notified == round.notified
        {
          if IsAnnounced(notified, pending[i].requestId) {
            continue;
          }
          var more, delivered := SendRequest(subscribers, pending[i], i, ok);
          sends := sends + more;
          if delivered {
            notified := notified[pending[i].requestId := now];
          }
        }
        assert sends == round.sends;
        subscribers := Without(subscribers, ReachedOnce(subscribers, sends));
      } else {
        NobodyToTell(notified, pending, 0, now, ok);
        assert subscribers == [];
      }
      assert sends == round.sends && notified == round.notified;
      assert subscribers == Without(state.subscribers, ReachedOnce(state.subscribers, sends));
      var after := State(subscribers, notified);
      if after != state {
        stored := after;
      }
    }

    method HandleCommand(e: Event)
      requires !e.PollTick?
      modifies this
      ensures stored == Step(old(stored), e).stored
    {
      var target := ResolveTarget(e.ctx);
      if target.None? {
        return;
      }
      var state := Read(stored);
      var index := FindKey(state.subscribers, Key(target.value));
      if e.Off? {
        if index.Some? {
          stored := state.(subscribers := state.subscribers[..index.value] + state.subscribers[index.value + 1..]);
        }
        return;
      }
      var mode := if e.On? then Persistent else Once;
      var next := Subscription(target.value, mode, e.now);
      if index.None? {
        stored := state.(subscribers := state.subscribers + [next]);
      } else if state.subscribers[index.value].mode != mode {
        stored := state.(subscribers := state.subscribers[index.value := next]);
      }
    }
  }

  lemma {:induction false} NobodyToTell(notified: map<string, int>, pending: seq<Request>, i: nat, now: int,
          ok: Channel)
    requires i <= |pending|
    ensures Announce([], notified, pending, i, now, ok) == Round([], notified)
    decreases |pending| - i
  {
    if i < |pending| {
      NobodyToTell(notified, pending, i + 1, now, ok);
    }
  }

  // ---------------------------------------------------------------- a request is announced once

  predicate SentAbout(sends: seq<Send>, id: string) {
    exists k :: 0 <= k < |sends| && sends[k].requestId == id
  }

  predicate DeliveredAbout(sends: seq<Send>, id: string) {
    exists k :: 0 <= k < |sends| && sends[k].requestId == id && sends[k].delivered
  }

  /** Persistent subscribers hear of every request; one-shot subscribers of those with a time
      stamp that is not before they subscribed. */
  ghost predicate HearsOf(s: Subscription, r: Request) {
    s.mode == Persistent || exists ts: int :: r.ts == Some(ts) && ts > 0 && s.addedAtMs <= ts
  }

  lemma HearsOfExactly(s: Subscription, r: Request)
    ensures ShouldNotify(s, r) <==> HearsOf(s, r)
  {
  }

  ghost predicate IsSendFor(subs: seq<Subscription>, r: Request, i: nat, ok: Channel, x: Send) {
    x.requestId == r.requestId && x.subscriber < |subs| && HearsOf(subs[x.subscriber], r)
    && x.delivered == ok(i, x.subscriber)
  }

  lemma {:induction false} SendsForShape(subs: seq<Subscription>, r: Request, i: nat, j: nat, ok: Channel)
    requires j <= |subs|
    ensures forall x :: x in SendsFor(subs, r, i, j, ok) <==> j <= x.subscriber && IsSendFor(subs, r, i, ok, x)
    decreases |subs| - j
  {
    if j < |subs| {
      SendsForShape(subs, r, i, j + 1, ok);
      var rest := SendsFor(subs, r, i, j + 1, ok);
      HearsOfExactly(subs[j], r);
      hide HearsOf, ShouldNotify;
      assert forall x :: x in SendsFor(subs, r, i, j, ok) <==>
        x in rest || (x == Send(r.requestId, j, ok(i, j)) && HearsOf(subs[j], r));
    }
  }

  /** An announced request stays recorded with its time, and no send mentions it. */
  lemma {:induction false} AnnouncedIsSilent(subs: seq<Subscription>, notified: map<string, int>, pending: seq<Request>,
          i: nat, now: int, ok: Channel, id: string)
    requires i <= |pending| && IsAnnounced(notified, id)
    ensures var round := Announce(subs, notified, pending, i, now, ok);
            !SentAbout(round.sends, id) && id in round.notified && round.notified[id] == notified[id]
    decreases |pending| - i
  {
    if i < |pending| {
      if IsAnnounced(notified, pending[i].requestId) {
        AnnouncedIsSilent(subs, notified, pending, i + 1, now, ok, id);
      } else {
        var sends := SendsFor(subs, pending[i], i, 0, ok);
        SendsForShape(subs, pending[i], i, 0, ok);
        var notified' := if AnyDelivered(sends) then notified[pending[i].requestId := now] else notified;
        AnnouncedIsSilent(subs, notified', pending, i + 1, now, ok, id);
      }
    }
  }

  /** A request that some send reached is recorded, with the time of the poll. */
  lemma {:induction false} DeliveredIsRecorded(subs: seq<Subscription>, notified: map<string, int>,
          pending: seq<Request>, i: nat, now: int, ok: Channel, id: string)
    requires i <= |pending| && now > 0
    requires DeliveredAbout(Announce(subs, notified, pending, i, now, ok).sends, id)
    ensures var round := Announce(subs, notified, pending, i, now, ok);
            id in round.notified && round.notified[id] == now
    decreases |pending| - i
  {
    if i < |pending| {
      if IsAnnounced(notified, pending[i].requestId) {
        DeliveredIsRecorded(subs, notified, pending, i + 1, now, ok, id);
      } else {
        var sends := SendsFor(subs, pending[i], i, 0, ok);
        SendsForShape(subs, pending[i], i, 0, ok);
        var notified' := if AnyDelivered(sends) then notified[pending[i].requestId := now] else notified;
        var rest := Announce(subs, notified', pending, i + 1, now, ok);
        var k :| 0 <= k < |sends + rest.sends| && (sends + rest.sends)[k].requestId == id
          && (sends + rest.sends)[k].delivered;
        if k < |sends| {
          assert sends[k].delivered && sends[k] in sends;
          AnnouncedIsSilent(subs, notified', pending, i + 1, now, ok, id);
        } else {
          assert rest.sends[k - |sends|].requestId == id;
          DeliveredIsRecorded(subs, notified', pending, i + 1, now, ok, id);
        }
      }
    }
  }

  /** What Announce records is what was recorded before or a pending request at the time of the poll. */
  lemma {:induction false} RecordedIsPending(subs: seq<Subscription>, notified: map<string, int>, pending: seq<Request>,
          i: nat, now: int, ok: Channel, id: string)
    requires i <= |pending| && id in Announce(subs, notified, pending, i, now, ok).notified
    ensures var round := Announce(subs, notified, pending, i, now, ok);
            (id in notified && round.notified[id] == notified[id])
              || (round.notified[id] == now && IsPending(pending, id))
    decreases |pending| - i
  {
    if i < |pending| {
      var sends := SendsFor(subs, pending[i], i, 0, ok);
      var notified' := if !IsAnnounced(notified, pending[i].requestId) && AnyDelivered(sends)
                       then notified[pending[i].requestId := now] else notified;
      RecordedIsPending(subs, notified', pending, i + 1, now, ok, id);
    }
  }

  /** After a poll everything recorded is pending and at most a day old. */
  lemma PollPrunes(stored: State, pending: seq<Request>, now: int, ok: Channel)
    ensures var after := Read(Poll(stored, pending, now, ok).stored).notified;
            forall id :: id in after ==> IsPending(pending, id) && now - after[id] <= 86_400_000
  {
    var state := Read(stored);
    var pruned := Prune(state.notified, pending, now);
    var round := Announce(state.subscribers, pruned, pending, 0, now, ok);
    var after := Read(Poll(stored, pending, now, ok).stored).notified;
    forall id | id in after
      ensures IsPending(pending, id) && now - after[id] <= MAX_SEEN_AGE_MS
    {
      if State(Without(state.subscribers, ReachedOnce(state.subscribers, round.sends)), round.notified) == state {
        assert id in round.notified && after[id] == round.notified[id];
      }
      RecordedIsPending(state.subscribers, pruned, pending, 0, now, ok, id);
    }
  }

  /** The state remembers that the request was announced at that time. */
  predicate Remembers(stored: State, id: string, at: int) {
    id in Read(stored).notified && Read(stored).notified[id] == at
  }

  lemma PollRemembersDelivery(stored: State, pending: seq<Request>, now: int, ok: Channel, id: string)
    requires now > 0 && JsTrim(id) != "" && DeliveredAbout(Poll(stored, pending, now, ok).sends, id)
    ensures Remembers(Poll(stored, pending, now, ok).stored, id, now)
  {
    var state := Read(stored);
    DeliveredIsRecorded(state.subscribers, Prune(state.notified, pending, now), pending, 0, now, ok, id);
  }

  lemma PollKeepsMemory(stored: State, pending: seq<Request>, now: int, ok: Channel, id: string, at: int)
    requires Remembers(stored, id, at) && IsPending(pending, id) && now - at <= MAX_SEEN_AGE_MS
    ensures var r := Poll(stored, pending, now, ok); Remembers(r.stored, id, at) && !SentAbout(r.sends, id)
  {
    var state := Read(stored);
    var pruned := Prune(state.notified, pending, now);
    assert IsAnnounced(pruned, id);
    AnnouncedIsSilent(state.subscribers, pruned, pending, 0, now, ok, id);
  }

  lemma StepKeepsMemory(stored: State, e: Event, id: string, at: int)
    requires Remembers(stored, id, at)
    requires e.PollTick? ==> IsPending(e.pending, id) && e.now - at <= MAX_SEEN_AGE_MS
    ensures Remembers(Step(stored, e).stored, id, at) && !SentAbout(Step(stored, e).sends, id)
  {
    if e.PollTick? {
      PollKeepsMemory(stored, e.pending, e.now, e.ok, id, at);
    }
  }

  /** All polls after event i up to event j find the request pending within a day of event i. */
  ghost predicate StaysPending(events: seq<Event>, i: nat, j: nat, id: string)
    requires i <= j < |events| && events[i].PollTick?
  {
    forall k :: i < k <= j && events[k].PollTick? ==>
      IsPending(events[k].pending, id) && events[k].now - events[i].now <= 86_400_000
  }

  lemma {:induction false} RemembersFrom(stored: State, events: seq<Event>, i: nat, j: nat, id: string)
    requires i <= j < |events| && events[i].PollTick? && events[i].now > 0 && JsTrim(id) != ""
    requires DeliveredAbout(SendsAt(stored, events, i), id) && StaysPending(events, i, j, id)
    ensures Remembers(StateAt(stored, events, j + 1), id, events[i].now)
    decreases j
  {
    if j == i {
      PollRemembersDelivery(StateAt(stored, events, i), events[i].pending, events[i].now, events[i].ok, id);
    } else {
      RemembersFrom(stored, events, i, j - 1, id);
      StepKeepsMemory(StateAt(stored, events, j), events[j], id, events[i].now);
    }
  }

  /** In every run: once some send about a request succeeded, nothing more is sent about it
      while every poll finds it pending and no more than a day has passed. */
  lemma NeverRepeats(stored: State, events: seq<Event>, i: nat, j: nat, id: string)
    requires i < j < |events| && events[i].PollTick? && events[i].now > 0 && JsTrim(id) != ""
    requires DeliveredAbout(SendsAt(stored, events, i), id) && StaysPending(events, i, j, id)
    ensures !SentAbout(SendsAt(stored, events, j), id)
  {
    hide StateAt, Step, Remembers, SentAbout, DeliveredAbout;
    RemembersFrom(stored, events, i, j - 1, id);
    StepKeepsMemory(StateAt(stored, events, j), events[j], id, events[i].now);
  }

  /** Somebody who should hear of pending request k is reached. */
  ghost predicate Reaches(subs: seq<Subscription>, r: Request, k: nat, ok: Channel) {
    exists j: nat :: j < |subs| && HearsOf(subs[j], r) && ok(k, j)
  }

  /** Between numbers i and m there is an entry for the same request, and somebody is reached about it. */
  ghost predicate ReachedBetween(subs: seq<Subscription>, pending: seq<Request>, ok: Channel, i: nat, m: nat)
    requires m < |pending|
  {
    exists k: nat :: i <= k < m && pending[k].requestId == pending[m].requestId && Reaches(subs, pending[k], k, ok)
  }

  lemma DeliveredWhenReached(subs: seq<Subscription>, r: Request, i: nat, ok: Channel)
    ensures AnyDelivered(SendsFor(subs, r, i, 0, ok)) <==> Reaches(subs, r, i, ok)
  {
    hide ShouldNotify, HearsOf;
    var sends := SendsFor(subs, r, i, 0, ok);
    SendsForShape(subs, r, i, 0, ok);
    if AnyDelivered(sends) {
      var k :| 0 <= k < |sends| && sends[k].delivered;
      assert sends[k] in sends;
      assert HearsOf(subs[sends[k].subscriber], r) && ok(i, sends[k].subscriber);
    }
    if Reaches(subs, r, i, ok) {
      var j: nat :| j < |subs| && HearsOf(subs[j], r) && ok(i, j);
      assert Send(r.requestId, j, true) in sends;
    }
  }

  /** Send x is due for pending entry m: its receiver should hear of the request, which is
      neither recorded nor made known by an entry before it. */
  ghost predicate IsDue(subs: seq<Subscription>, notified: map<string, int>, pending: seq<Request>, i: nat, ok: Channel,
          m: nat, x: Send)
    requires m < |pending|
  {
    && IsSendFor(subs, pending[m], m, ok, x)
    && !IsAnnounced(notified, pending[m].requestId)
    && !ReachedBetween(subs, pending, ok, i, m)
  }

  lemma DueLater(subs: seq<Subscription>, notified: map<string, int>, notified': map<string, int>,
          pending: seq<Request>,
      i: nat, now: int, ok: Channel, m: nat, x: Send)
    requires i < m < |pending| && now != 0
    requires notified' == if !IsAnnounced(notified, pending[i].requestId) && Reaches(subs, pending[i], i, ok)
                          then notified[pending[i].requestId := now] else notified
    ensures IsDue(subs, notified, pending, i, ok, m, x) <==> IsDue(subs, notified', pending, i + 1, ok, m, x)
  {
    hide IsSendFor, Reaches;
    if ReachedBetween(subs, pending, ok, i, m) {
      var k: nat :| i <= k < m && pending[k].requestId == pending[m].requestId && Reaches(subs, pending[k], k, ok);
      assert k == i || ReachedBetween(subs, pending, ok, i + 1, m);
    }
    if ReachedBetween(subs, pending, ok, i + 1, m) {
      assert ReachedBetween(subs, pending, ok, i, m);
    }
    if pending[i].requestId == pending[m].requestId && Reaches(subs, pending[i], i, ok) {
      assert ReachedBetween(subs, pending, ok, i, m);
    }
  }

  ghost predicate SomeDue(subs: seq<Subscription>, notified: map<string, int>, pending: seq<Request>, i: nat,
          ok: Channel, x: Send) {
    exists m: nat :: i <= m < |pending| && IsDue(subs, notified, pending, i, ok, m, x)
  }

  lemma DueFromHere(subs: seq<Subscription>, notified: map<string, int>, notified': map<string, int>,
          pending: seq<Request>,
      i: nat, now: int, ok: Channel, x: Send)
    requires i < |pending| && now != 0
    requires notified' == if !IsAnnounced(notified, pending[i].requestId) && Reaches(subs, pending[i], i, ok)
                          then notified[pending[i].requestId := now] else notified
    ensures SomeDue(subs, notified, pending, i, ok, x) <==>
            IsDue(subs, notified, pending, i, ok, i, x) || SomeDue(subs, notified', pending, i + 1, ok, x)
  {
    hide IsDue, Reaches, IsAnnounced;
    if SomeDue(subs, notified, pending, i, ok, x) {
      var m: nat :| i <= m < |pending| && IsDue(subs, notified, pending, i, ok, m, x);
      if m > i {
        DueLater(subs, notified, notified', pending, i, now, ok, m, x);
      }
    }
    if SomeDue(subs, notified', pending, i + 1, ok, x) {
      var m: nat :| i + 1 <= m < |pending| && IsDue(subs, notified', pending, i + 1, ok, m, x);
      DueLater(subs, notified, notified', pending, i, now, ok, m, x);
    }
  }

  lemma {:induction false} AnnounceSendsExactly(subs: seq<Subscription>, notified: map<string, int>,
          pending: seq<Request>,
      i: nat, now: int, ok: Channel, x: Send)
    requires i <= |pending| && now != 0
    ensures x in Announce(subs, notified, pending, i, now, ok).sends <==> SomeDue(subs, notified, pending, i, ok, x)
    decreases |pending| - i
  {
    if i < |pending| {
      var r := pending[i];
      var sends := SendsFor(subs, r, i, 0, ok);
      DeliveredWhenReached(subs, r, i, ok);
      SendsForShape(subs, r, i, 0, ok);
      hide SendsFor, Reaches, SomeDue;
      var notified' := if !IsAnnounced(notified, r.requestId) && Reaches(subs, r, i, ok)
                       then notified[r.requestId := now] else notified;
      AnnounceSendsExactly(subs, notified', pending, i + 1, now, ok, x);
      DueFromHere(subs, notified, notified', pending, i, now, ok, x);
      assert IsDue(subs, notified, pending, i, ok, i, x) <==> !IsAnnounced(notified, r.requestId) && x in sends;
    }
  }

  /** The stored state says that the request was announced no longer than a day ago. */
  predicate RecentlyAnnounced(stored: State, now: int, id: string) {
    id in Read(stored).notified && now - Read(stored).notified[id] <= 86_400_000
  }

  /** Send x is due at this poll for pending entry m. */
  ghost predicate IsDueAt(stored: State, pending: seq<Request>, now: int, ok: Channel, m: nat, x: Send)
    requires m < |pending|
  {
    var subs := Read(stored).subscribers;
    && IsSendFor(subs, pending[m], m, ok, x)
    && !RecentlyAnnounced(stored, now, pending[m].requestId)
    && !ReachedBetween(subs, pending, ok, 0, m)
  }

  lemma DueAtPoll(stored: State, pending: seq<Request>, now: int, ok: Channel, m: nat, x: Send)
    requires m < |pending|
    ensures IsDueAt(stored, pending, now, ok, m, x) <==>
            IsDue(Read(stored).subscribers, Prune(Read(stored).notified, pending, now), pending, 0, ok, m, x)
  {
    hide IsSendFor, ReachedBetween;
    assert IsPending(pending, pending[m].requestId);
  }

  /** A poll reaches out about exactly the pending requests that were not announced within
      the last day, to exactly the subscribers that should hear of them, and about a request
      that is listed twice only until somebody is reached. */
  lemma PollSendsExactly(stored: State, pending: seq<Request>, now: int, ok: Channel, x: Send)
    requires now > 0
    ensures x in Poll(stored, pending, now, ok).sends <==>
            exists m: nat :: m < |pending| && IsDueAt(stored, pending, now, ok, m, x)
  {
    var state := Read(stored);
    var pruned := Prune(state.notified, pending, now);
    AnnounceSendsExactly(state.subscribers, pruned, pending, 0, now, ok, x);
    assert x in Poll(stored, pending, now, ok).sends <==> SomeDue(state.subscribers, pruned, pending, 0, ok, x);
    hide IsDue, IsDueAt, Poll, Prune, Read;
    if m: nat :| m < |pending| && IsDueAt(stored, pending, now, ok, m, x) {
      DueAtPoll(stored, pending, now, ok, m, x);
    }
    if SomeDue(state.subscribers, pruned, pending, 0, ok, x) {
      var m: nat :| m < |pending| && IsDue(state.subscribers, pruned, pending, 0, ok, m, x);
      DueAtPoll(stored, pending, now, ok, m, x);
    }
  }

  // ---------------------------------------------------------------- ids that are not remembered

  /** In no run anything is sent about the request again, while it stays pending, within a day
      after some send about it succeeded. */
  ghost predicate NeverSentAgain(id: string) {
    forall stored: State, events: seq<Event>, i: nat, j: nat :: SucceededBefore(stored, events, i, j, id) ==>
      !SentAbout(SendsAt(stored, events, j), id)
  }

  ghost predicate SucceededBefore(stored: State, events: seq<Event>, i: nat, j: nat, id: string) {
    && i < j < |events| && events[i].PollTick? && events[i].now > 0
    && DeliveredAbout(SendsAt(stored, events, i), id) && StaysPending(events, i, j, id)
  }

  const SOMEBODY := Subscription(Target("x", None, None), Persistent, 0)

  lemma SomebodyIsNormal()
    ensures AllNormal([SOMEBODY])
  {
    assert JsTrim("x") == "x";
  }

  /** A poll with one persistent subscriber who is reached: whoever is pending is told. */
  lemma PollOfOne(stored: State, r: Request, ok: Channel)
    requires Read(stored).subscribers == [SOMEBODY] && JsTrim(r.requestId) == "" && ok(0, 0)
    ensures var p := Poll(stored, [r], 1, ok);
            DeliveredAbout(p.sends, r.requestId) && Read(p.stored).subscribers == [SOMEBODY]
  {
    var subs := Read(stored).subscribers;
    var x := Send(r.requestId, 0, true);
    var p := Poll(stored, [r], 1, ok);
    assert IsDueAt(stored, [r], 1, ok, 0, x);
    PollSendsExactly(stored, [r], 1, ok, x);
    hide Announce, Prune;
    var k :| 0 <= k < |p.sends| && p.sends[k] == x;
    assert ReachedOnce(subs, p.sends) == {};
    assert [SOMEBODY][1..] == [];
    assert Without(subs, {}) == subs;
    SomebodyIsNormal();
    NormalUnchanged([SOMEBODY]);
  }

  /** An id of white space is recorded, and dropped again when the state is read: it is sent
      at every poll. For all other ids nothing is repeated. */
  lemma NeverSentAgainExactly(id: string)
    ensures NeverSentAgain(id) <==> JsTrim(id) != ""
  {
    hide StateAt, StaysPending, Poll, Read, SentAbout, DeliveredAbout;
    if JsTrim(id) != "" {
      forall stored: State, events: seq<Event>, i: nat, j: nat | SucceededBefore(stored, events, i, j, id)
        ensures !SentAbout(SendsAt(stored, events, j), id)
      {
        NeverRepeats(stored, events, i, j, id);
      }
    } else {
      var stored, events := BlankIdIsRepeated(id);
      assert !NeverSentAgain(id);
    }
  }

  lemma BlankIdIsRepeated(id: string) returns (stored: State, events: seq<Event>)
    requires JsTrim(id) == ""
    ensures SucceededBefore(stored, events, 0, 1, id) && SentAbout(SendsAt(stored, events, 1), id)
  {
    var ok: Channel := (i, j) => true;
    var r := Request(id, None);
    var tick := PollTick([r], 1, ok);
    stored, events := State([SOMEBODY], map[]), [tick, tick];
    SomebodyIsNormal();
    NormalUnchanged([SOMEBODY]);
    PollOfOne(stored, r, ok);
    assert StateAt(stored, events, 0) == stored;
    assert StateAt(stored, events, 1) == Poll(stored, [r], 1, ok).stored;
    PollOfOne(StateAt(stored, events, 1), r, ok);
    assert IsPending([r], id) by {
      assert [r][0].requestId == id;
    }
    hide Poll, Read, StateAt, DeliveredAbout;
    DeliveredIsSent(Poll(StateAt(stored, events, 1), [r], 1, ok).sends, id);
  }

  lemma DeliveredIsSent(sends: seq<Send>, id: string)
    requires DeliveredAbout(sends, id)
    ensures SentAbout(sends, id)
  {
  }

  // ---------------------------------------------------------------- one subscriber per key

  ghost predicate DistinctKeys(subs: seq<Subscription>) {
    forall i, j :: 0 <= i < j < |subs| ==> Key(subs[i].target) != Key(subs[j].target)
  }

  /** Reading back a command's target does not change its key. */
  predicate StableKey(t: Target) {
    Key(NormalTarget(t)) == Key(t)
  }

  /** A target that shows it: the account is stored with its blank and read back without. */
  lemma PaddedAccountIsUnstable()
    ensures !StableKey(Target("x", Some(" a"), None))
  {
    var t := Target("x", Some(" a"), None);
    assert JsTrim(" a") == "a" && JsTrim("x") == "x";
    assert Key(t) != Key(NormalTarget(t));
  }

  lemma {:induction false} NormalAppend(a: seq<Subscription>, b: seq<Subscription>)
    ensures NormalSubscribers(a + b) == NormalSubscribers(a) + NormalSubscribers(b)
  {
    if a == [] {
      assert a + b == b;
    } else {
      assert (a + b)[1..] == a[1..] + b;
      NormalAppend(a[1..], b);
    }
  }

  lemma NormalOne(s: Subscription)
    requires NormalTarget(s.target).to != ""
    ensures NormalSubscribers([s]) == [s.(target := NormalTarget(s.target))]
  {
    hide NormalTarget;
    assert NormalSubscribers([s][1..]) == [];
  }

  /** How a changed list reads back: the new entry is normalised, the others are as they were. */
  lemma ReadBackEntry(a: seq<Subscription>, s: Subscription, b: seq<Subscription>)
    requires AllNormal(a) && AllNormal(b) && NormalTarget(s.target).to != ""
    ensures NormalSubscribers(a + [s] + b) == a + [s.(target := NormalTarget(s.target))] + b
  {
    hide NormalSubscribers, NormalTarget;
    NormalAppend(a + [s], b);
    NormalAppend(a, [s]);
    NormalUnchanged(a);
    NormalUnchanged(b);
    NormalOne(s);
  }

  lemma SameKeyStaysDistinct(a: seq<Subscription>, was: Subscription, s: Subscription, b: seq<Subscription>)
    requires DistinctKeys(a + [was] + b) && Key(s.target) == Key(was.target)
    ensures DistinctKeys(a + [s] + b)
  {
    hide Key;
    forall i | 0 <= i < |a + [s] + b|
      ensures Key((a + [s] + b)[i].target) == Key((a + [was] + b)[i].target)
    {
    }
  }

  lemma NewKeyStaysDistinct(subs: seq<Subscription>, s: Subscription)
    requires DistinctKeys(subs) && forall i :: 0 <= i < |subs| ==> Key(subs[i].target) != Key(s.target)
    ensures DistinctKeys(subs + [s])
  {
  }

  lemma UpsertKeepsKeysDistinct(subs: seq<Subscription>, t: Target, mode: Mode, now: int)
    requires AllNormal(subs) && DistinctKeys(subs) && StableKey(t) && JsTrim(t.to) != ""
    requires Upsert(subs, t, mode, now).Some?
    ensures DistinctKeys(NormalSubscribers(Upsert(subs, t, mode, now).value))
  {
    assert NormalTarget(t).to != "";
    hide NormalSubscribers, DistinctKeys, Key, NormalTarget, JsTrim, IsNormal;
    var index := FindKey(subs, Key(t));
    var s, back := Subscription(t, mode, now), Subscription(NormalTarget(t), mode, now);
    if index.None? {
      assert subs + [s] == subs + [s] + [] && subs + [back] == subs + [back] + [];
      ReadBackEntry(subs, s, []);
      NewKeyStaysDistinct(subs, back);
    } else {
      var a, was, b := subs[..index.value], subs[index.value], subs[index.value + 1..];
      assert subs == a + [was] + b && subs[index.value := s] == a + [s] + b;
      ReadBackEntry(a, s, b);
      SameKeyStaysDistinct(a, was, back, b);
    }
  }

  /** Subscribing a target keeps the keys distinct, whatever is stored, exactly when reading
      the target back does not change its key: the account must not be padded with blanks. */
  lemma SubscribingKeepsKeysDistinctExactly(t: Target, mode: Mode, now: int)
    requires JsTrim(t.to) != ""
    ensures StableKey(t) <==>
            forall subs: seq<Subscription> ::
              AllNormal(subs) && DistinctKeys(subs) && Upsert(subs, t, mode, now).Some? ==>
              DistinctKeys(NormalSubscribers(Upsert(subs, t, mode, now).value))
  {
    if StableKey(t) {
      forall subs: seq<Subscription> | AllNormal(subs) && DistinctKeys(subs) && Upsert(subs, t, mode, now).Some?
        ensures DistinctKeys(NormalSubscribers(Upsert(subs, t, mode, now).value))
      {
        UpsertKeepsKeysDistinct(subs, t, mode, now);
      }
    } else {
      var s := Subscription(t, mode, now);
      var other := s.(target := NormalTarget(t));
      assert AllNormal([other]) && DistinctKeys([other]);
      assert Upsert([other], t, mode, now) == Some([other] + [s]);
      assert [other] + [s] == [other] + [s] + [];
      ReadBackEntry([other], s, []);
      var back := NormalSubscribers([other] + [s]);
      assert back[0] == back[1] == other;
      assert !DistinctKeys(back);
    }
  }

  lemma {:induction false} WithoutMembers(subs: seq<Subscription>, keys: set<string>)
    ensures forall s :: s in Without(subs, keys) <==> s in subs && Key(s.target) !in keys
  {
    if subs != [] {
      WithoutMembers(subs[1..], keys);
      assert subs == [subs[0]] + subs[1..];
    }
  }

  lemma WithoutNormal(subs: seq<Subscription>, keys: set<string>)
    requires AllNormal(subs)
    ensures AllNormal(Without(subs, keys))
  {
    WithoutMembers(subs, keys);
    var r := Without(subs, keys);
    forall i | 0 <= i < |r|
      ensures IsNormal(r[i])
    {
      assert r[i] in subs;
    }
  }

  lemma {:induction false} WithoutDistinct(subs: seq<Subscription>, keys: set<string>)
    requires DistinctKeys(subs)
    ensures DistinctKeys(Without(subs, keys))
  {
    if subs != [] {
      WithoutDistinct(subs[1..], keys);
      WithoutMembers(subs[1..], keys);
      var rest := Without(subs[1..], keys);
      forall j | 0 <= j < |rest|
        ensures Key(subs[0].target) != Key(rest[j].target)
      {
        assert rest[j] in subs[1..];
      }
    }
  }

  lemma PollKeepsKeysDistinct(stored: State, pending: seq<Request>, now: int, ok: Channel)
    requires DistinctKeys(Read(stored).subscribers)
    ensures DistinctKeys(Read(Poll(stored, pending, now, ok).stored).subscribers)
    ensures Read(Poll(stored, pending, now, ok).stored).subscribers
         == Without(Read(stored).subscribers,
           ReachedOnce(Read(stored).subscribers, Poll(stored, pending, now, ok).sends))
  {
    var state := Read(stored);
    var keys := ReachedOnce(state.subscribers, Poll(stored, pending, now, ok).sends);
    ReadIsNormal(stored.subscribers);
    WithoutNormal(state.subscribers, keys);
    WithoutDistinct(state.subscribers, keys);
    NormalUnchanged(Without(state.subscribers, keys));
  }

  ghost predicate StableEvent(e: Event) {
    e.PollTick? || e.Off? || (ResolveTarget(e.ctx).Some? ==> StableKey(ResolveTarget(e.ctx).value))
  }

  lemma SubscribeKeepsKeysDistinct(stored: State, t: Option<Target>, mode: Mode, now: int)
    requires DistinctKeys(Read(stored).subscribers)
    requires t.Some? ==> StableKey(t.value) && JsTrim(t.value.to) != ""
    ensures t.Some? ==>
            DistinctKeys(Read(Changed(stored, Upsert(Read(stored).subscribers, t.value, mode, now)).stored).subscribers)
  {
    ReadIsNormal(stored.subscribers);
    if t.Some? && Upsert(Read(stored).subscribers, t.value, mode, now).Some? {
      UpsertKeepsKeysDistinct(Read(stored).subscribers, t.value, mode, now);
    }
  }

  lemma RemoveKeepsKeysDistinct(stored: State, t: Target)
    requires DistinctKeys(Read(stored).subscribers)
    ensures DistinctKeys(Read(Changed(stored, Removed(Read(stored).subscribers, t)).stored).subscribers)
  {
    hide NormalSubscribers;
    var subs := Read(stored).subscribers;
    ReadIsNormal(stored.subscribers);
    if Removed(subs, t).Some? {
      NormalUnchanged(Removed(subs, t).value);
    }
  }

  lemma StepKeepsKeysDistinct(stored: State, e: Event)
    requires DistinctKeys(Read(stored).subscribers) && StableEvent(e)
    ensures DistinctKeys(Read(Step(stored, e).stored).subscribers)
  {
    match e
    case PollTick(pending, now, ok) => PollKeepsKeysDistinct(stored, pending, now, ok);
    case Off(ctx) =>
      if ResolveTarget(ctx).Some? {
        RemoveKeepsKeysDistinct(stored, ResolveTarget(ctx).value);
      }
    case On(ctx, now) => SubscribeKeepsKeysDistinct(stored, ResolveTarget(ctx), Persistent, now);
    case ArmOnce(ctx, now) => SubscribeKeepsKeysDistinct(stored, ResolveTarget(ctx), Once, now);
  }

  /** Read back, the state has at most one subscriber per key. */
  ghost predicate OnePerKey(stored: State) {
    DistinctKeys(Read(stored).subscribers)
  }

  /** Every run of polls and commands with stable keys keeps one subscriber per key. */
  lemma OneSubscriberPerKey(stored: State, events: seq<Event>, k: nat)
    requires k <= |events| && OnePerKey(stored)
    requires forall i :: 0 <= i < k ==> StableEvent(events[i])
    ensures OnePerKey(StateAt(stored, events, k))
  {
    forall i, s: State | 0 <= i < k && OnePerKey(s)
      ensures OnePerKey(StoredStep()(s, events[i]))
    {
      StepKeepsKeysDistinct(s, events[i]);
    }
    InvariantOfRun(StoredStep(), (s: State) => OnePerKey(s), stored, events, k);
  }

  predicate ReachedBy(subs: seq<Subscription>, sends: seq<Send>, j: nat)
  {
    exists k :: 0 <= k < |sends| && sends[k].delivered && sends[k].subscriber == j
  }

  /** A poll keeps every persistent subscriber and drops a one-shot subscriber exactly when
      some send to it succeeded. */
  lemma PollDropsExactlyReachedOnce(stored: State, pending: seq<Request>, now: int, ok: Channel, j: nat)
    requires DistinctKeys(Read(stored).subscribers) && j < |Read(stored).subscribers|
    ensures var subs := Read(stored).subscribers;
            var r := Poll(stored, pending, now, ok);
            subs[j] in Read(r.stored).subscribers <==> !(subs[j].mode.Once? && ReachedBy(subs, r.sends, j))
  {
    var subs := Read(stored).subscribers;
    var r := Poll(stored, pending, now, ok);
    PollKeepsKeysDistinct(stored, pending, now, ok);
    WithoutMembers(subs, ReachedOnce(subs, r.sends));
    if Key(subs[j].target) in ReachedOnce(subs, r.sends) {
      var k :| 0 <= k < |r.sends| && r.sends[k].delivered && r.sends[k].subscriber < |subs|
        && subs[r.sends[k].subscriber].mode.Once? && Key(subs[r.sends[k].subscriber].target) == Key(subs[j].target);
      assert r.sends[k].subscriber == j;
    }
  }

  // ---------------------------------------------------------------- reading and writing the file

  /** The subscriber that an entry of the file is read as: texts trimmed, a blank account left
      out, and no subscriber without a name. */
  predicate IsReadAs(raw: Subscription, s: Subscription) {
    && s.target.to == JsTrim(raw.target.to) && s.target.to != ""
    && (s.target.accountId.Some? <==> raw.target.accountId.Some? && JsTrim(raw.target.accountId.value) != "")
    && (s.target.accountId.Some? ==> s.target.accountId.value == JsTrim(raw.target.accountId.value))
    && s.target.messageThreadId == raw.target.messageThreadId
    && s.mode == raw.mode && s.addedAtMs == raw.addedAtMs
  }

  lemma ReadAsExactly(raw: Subscription, s: Subscription)
    ensures IsReadAs(raw, s) <==> NormalTarget(raw.target).to != "" && s == raw.(target := NormalTarget(raw.target))
  {
    hide JsTrim;
  }

  lemma {:induction false} SubscribersRead(subs: seq<Subscription>, s: Subscription)
    ensures s in NormalSubscribers(subs) <==> exists i :: 0 <= i < |subs| && IsReadAs(subs[i], s)
  {
    if subs != [] {
      SubscribersRead(subs[1..], s);
      ReadAsExactly(subs[0], s);
      hide IsReadAs, NormalTarget;
      assert forall i :: 0 <= i < |subs[1..]| ==> subs[1..][i] == subs[i + 1];
      assert forall i :: 1 <= i < |subs| ==> subs[i] == subs[1..][i - 1];
    }
  }

  /** What is read from the file: every entry with a name, and every request with an id that is
      not blank and a time above zero. */
  lemma ReadExactly(stored: State, s: Subscription, id: string, at: int)
    ensures s in Read(stored).subscribers <==>
            exists i :: 0 <= i < |stored.subscribers| && IsReadAs(stored.subscribers[i], s)
    ensures Remembers(stored, id, at) <==>
            JsTrim(id) != "" && at > 0 && id in stored.notified && stored.notified[id] == at
  {
    SubscribersRead(stored.subscribers, s);
  }

  lemma UpsertChanges(subs: seq<Subscription>, t: Target, mode: Mode, now: int)
    requires AllNormal(subs) && JsTrim(t.to) != "" && Upsert(subs, t, mode, now).Some?
    ensures NormalSubscribers(Upsert(subs, t, mode, now).value) != subs
  {
    assert NormalTarget(t).to != "";
    hide NormalSubscribers, Key, NormalTarget, JsTrim, IsNormal;
    var index := FindKey(subs, Key(t));
    var s, back := Subscription(t, mode, now), Subscription(NormalTarget(t), mode, now);
    if index.None? {
      assert subs + [s] == subs + [s] + [] && subs + [back] == subs + [back] + [];
      ReadBackEntry(subs, s, []);
    } else {
      var a, b := subs[..index.value], subs[index.value + 1..];
      assert subs == a + [subs[index.value]] + b && subs[index.value := s] == a + [s] + b;
      ReadBackEntry(a, s, b);
      assert (a + [back] + b)[index.value] == back;
    }
  }

  lemma RemovedChanges(subs: seq<Subscription>, t: Target)
    requires AllNormal(subs) && Removed(subs, t).Some?
    ensures NormalSubscribers(Removed(subs, t).value) != subs
  {
    hide NormalSubscribers, Key, IsNormal;
    var i := FindKey(subs, Key(t)).value;
    NormalUnchanged(subs[..i] + subs[i + 1..]);
  }

  lemma PollChanges(stored: State, pending: seq<Request>, now: int, ok: Channel)
    requires now > 0 && forall i :: 0 <= i < |pending| ==> JsTrim(pending[i].requestId) != ""
    ensures var after := Poll(stored, pending, now, ok).stored; after == stored || Read(after) != Read(stored)
  {
    var state := Read(stored);
    var pruned := Prune(state.notified, pending, now);
    var round := Announce(state.subscribers, pruned, pending, 0, now, ok);
    var after := State(Without(state.subscribers, ReachedOnce(state.subscribers, round.sends)), round.notified);
    ReadIsNormal(stored.subscribers);
    WithoutNormal(state.subscribers, ReachedOnce(state.subscribers, round.sends));
    NormalUnchanged(after.subscribers);
    forall id | id in round.notified
      ensures JsTrim(id) != "" && round.notified[id] > 0
    {
      RecordedIsPending(state.subscribers, pruned, pending, 0, now, ok, id);
    }
    hide Announce, Without, ReachedOnce, NormalSubscribers, Prune, JsTrim;
    assert Read(after).notified == after.notified;
    assert Read(after) == after;
  }

  /** The file is written only when something changes that is read from it. */
  lemma WritesOnlyChanges(stored: State, e: Event)
    requires e.PollTick? ==> e.now > 0 && forall i :: 0 <= i < |e.pending| ==> JsTrim(e.pending[i].requestId) != ""
    ensures Step(stored, e).stored == stored || Read(Step(stored, e).stored) != Read(stored)
  {
    var subs := Read(stored).subscribers;
    ReadIsNormal(stored.subscribers);
    match e
    case PollTick(pending, now, ok) =>
      hide *;
      PollChanges(stored, pending, now, ok);
    case Off(ctx) =>
      var t := ResolveTarget(ctx);
      if t.Some? && Removed(subs, t.value).Some? {
        RemovedChanges(subs, t.value);
      }
    case On(ctx, now) =>
      var t := ResolveTarget(ctx);
      if t.Some? && Upsert(subs, t.value, Persistent, now).Some? {
        UpsertChanges(subs, t.value, Persistent, now);
      }
    case ArmOnce(ctx, now) =>
      var t := ResolveTarget(ctx);
      if t.Some? && Upsert(subs, t.value, Once, now).Some? {
        UpsertChanges(subs, t.value, Once, now);
      }
  }

  // ---------------------------------------------------------------- what a command does to its sender

  /** The target of a command: the first of its three names that is not blank, and the account
      and the thread as they are given. */
  predicate IsSender(ctx: Context, t: Target) {
    var sender, from, to := JsTrim(ctx.senderId), JsTrim(ctx.from), JsTrim(ctx.to);
    && t.to != "" && t.to in [sender, from, to]
    && (sender != "" ==> t.to == sender) && (sender == "" && from != "" ==> t.to == from)
    && (t.accountId.Some? <==> ctx.accountId != "") && (t.accountId.Some? ==> t.accountId.value == ctx.accountId)
    && t.messageThreadId == ctx.messageThreadId
  }

  lemma SenderExactly(ctx: Context, t: Target)
    ensures ResolveTarget(ctx) == Some(t) <==> IsSender(ctx, t)
    ensures ResolveTarget(ctx).None? <==> JsTrim(ctx.senderId) == JsTrim(ctx.from) == JsTrim(ctx.to) == ""
  {
  }

  /** The subscribers with other keys are the same. */
  ghost predicate OthersKept(before: seq<Subscription>, after: seq<Subscription>, key: string) {
    forall s: Subscription :: Key(s.target) != key ==> (s in after <==> s in before)
  }

  /** There is one subscriber with the key of the target, in this mode: the one from before if
      it was in this mode, and otherwise a new one from now. */
  ghost predicate SubscribedAs(before: seq<Subscription>, after: seq<Subscription>, t: Target, mode: Mode, now: int) {
    && DistinctKeys(after)
    && exists s: Subscription ::
         && s in after && Key(s.target) == Key(t) && s.mode == mode
         && (s in before || (s.addedAtMs == now && s.target == NormalTarget(t)
                             && forall b :: b in before && Key(b.target) == Key(t) ==> b.mode != mode))
  }

  lemma AddedIsSubscribed(subs: seq<Subscription>, s: Subscription, t: Target)
    requires DistinctKeys(subs) && forall i :: 0 <= i < |subs| ==> Key(subs[i].target) != Key(s.target)
    requires s.target == NormalTarget(t) && Key(s.target) == Key(t)
    ensures OthersKept(subs, subs + [s], Key(t)) && SubscribedAs(subs, subs + [s], t, s.mode, s.addedAtMs)
  {
    hide Key, NormalTarget, DistinctKeys;
    NewKeyStaysDistinct(subs, s);
    assert s in subs + [s];
    assert forall x :: x in subs + [s] <==> x in subs || x == s;
  }

  lemma KeptIsSubscribed(subs: seq<Subscription>, was: Subscription, t: Target, now: int)
    requires DistinctKeys(subs) && was in subs && Key(was.target) == Key(t)
    ensures OthersKept(subs, subs, Key(t)) && SubscribedAs(subs, subs, t, was.mode, now)
  {
    hide Key, NormalTarget, DistinctKeys;
  }

  lemma MiddleMembers(a: seq<Subscription>, s: Subscription, b: seq<Subscription>)
    ensures forall x :: x in a + [s] + b <==> x in a || x == s || x in b
  {
  }

  lemma ReplacedIsSubscribed(a: seq<Subscription>, was: Subscription, b: seq<Subscription>, s: Subscription, t: Target)
    requires DistinctKeys(a + [was] + b) && Key(was.target) == Key(t) == Key(s.target)
    requires s.target == NormalTarget(t) && was.mode != s.mode
    ensures var subs, after := a + [was] + b, a + [s] + b;
            OthersKept(subs, after, Key(t)) && SubscribedAs(subs, after, t, s.mode, s.addedAtMs)
  {
    hide Key, NormalTarget;
    SameKeyStaysDistinct(a, was, s, b);
    assert (a + [was] + b)[|a|] == was;
    OnlyOneWithKey(a + [was] + b, |a|);
    hide DistinctKeys;
    MiddleMembers(a, was, b);
    MiddleMembers(a, s, b);
  }

  lemma UpsertReadBack(subs: seq<Subscription>, t: Target, mode: Mode, now: int)
    requires AllNormal(subs) && DistinctKeys(subs) && StableKey(t) && JsTrim(t.to) != ""
    ensures var after := if Upsert(subs, t, mode, now).Some? then NormalSubscribers(Upsert(subs, t, mode, now).value)
                         else subs;
            OthersKept(subs, after, Key(t)) && SubscribedAs(subs, after, t, mode, now)
  {
    assert NormalTarget(t).to != "";
    hide NormalSubscribers, DistinctKeys, Key, NormalTarget, JsTrim, IsNormal, OthersKept, SubscribedAs;
    var index := FindKey(subs, Key(t));
    if index.None? {
      var s, back := Subscription(t, mode, now), Subscription(NormalTarget(t), mode, now);
      assert Upsert(subs, t, mode, now) == Some(subs + [s]);
      hide Upsert, FindKey;
      assert subs + [s] == subs + [s] + [] && subs + [back] == subs + [back] + [];
      ReadBackEntry(subs, s, []);
      AddedIsSubscribed(subs, back, t);
    } else if subs[index.value].mode == mode {
      KeptIsSubscribed(subs, subs[index.value], t, now);
    } else {
      ChangedReadBackAt(subs, index.value, t, mode, now);
    }
  }

  lemma ChangedReadBackAt(subs: seq<Subscription>, i: nat, t: Target, mode: Mode, now: int)
    requires AllNormal(subs) && DistinctKeys(subs) && StableKey(t) && NormalTarget(t).to != ""
    requires i < |subs| && Key(subs[i].target) == Key(t) && subs[i].mode != mode
    ensures var after := NormalSubscribers(subs[i := Subscription(t, mode, now)]);
            OthersKept(subs, after, Key(t)) && SubscribedAs(subs, after, t, mode, now)
  {
    hide NormalSubscribers, DistinctKeys, Key, NormalTarget, IsNormal, OthersKept, SubscribedAs;
    var s, back := Subscription(t, mode, now), Subscription(NormalTarget(t), mode, now);
    var a, was, b := subs[..i], subs[i], subs[i + 1..];
    assert subs == a + [was] + b && subs[i := s] == a + [s] + b;
    ReadBackEntry(a, s, b);
    ReplacedIsSubscribed(a, was, b, back, t);
  }

  lemma OnlyOneWithKey(subs: seq<Subscription>, i: nat)
    requires DistinctKeys(subs) && i < |subs|
    ensures forall s :: s in subs && Key(s.target) == Key(subs[i].target) ==> s == subs[i]
  {
    hide Key;
  }

  lemma RemovedReadBack(subs: seq<Subscription>, t: Target)
    requires AllNormal(subs) && DistinctKeys(subs)
    ensures var after := if Removed(subs, t).Some? then NormalSubscribers(Removed(subs, t).value) else subs;
            OthersKept(subs, after, Key(t)) && forall s :: s in after ==> Key(s.target) != Key(t)
  {
    hide NormalSubscribers, Key, IsNormal;
    var index := FindKey(subs, Key(t));
    if index.Some? {
      var a, was, b := subs[..index.value], subs[index.value], subs[index.value + 1..];
      assert subs == a + [was] + b;
      NormalUnchanged(a + b);
      assert forall s :: s in a + b <==> s in a || s in b;
    }
  }

  lemma ChangedReadBack(stored: State, subs: Option<seq<Subscription>>)
    ensures var after := Read(Changed(stored, subs).stored);
            && after.notified == Read(stored).notified
            && after.subscribers == if subs.Some? then NormalSubscribers(subs.value) else Read(stored).subscribers
  {
    hide NormalSubscribers;
  }

  /** What a command does, for every stored state with one subscriber per key and every sender
      with a stable key: on leaves its sender subscribed for good, once for one message, and
      off not at all. All other subscribers and the recorded requests stay. */
  lemma CommandDoes(stored: State, e: Event, t: Target)
    requires !e.PollTick? && IsSender(e.ctx, t) && StableKey(t) && OnePerKey(stored)
    ensures var before, after := Read(stored), Read(Step(stored, e).stored);
            && after.notified == before.notified
            && OthersKept(before.subscribers, after.subscribers, Key(t))
            && (e.On? ==> SubscribedAs(before.subscribers, after.subscribers, t, Persistent, e.now))
            && (e.ArmOnce? ==> SubscribedAs(before.subscribers, after.subscribers, t, Once, e.now))
            && (e.Off? ==> forall s :: s in after.subscribers ==> Key(s.target) != Key(t))
  {
    var subs := Read(stored).subscribers;
    SenderExactly(e.ctx, t);
    ReadIsNormal(stored.subscribers);
    assert AllNormal(subs);
    hide IsSender, ResolveTarget, Read, Upsert, Removed, NormalSubscribers, StableKey, SubscribedAs, OthersKept, Key,
      Changed;
    match e
    case Off(_) =>
      RemovedReadBack(subs, t);
      ChangedReadBack(stored, Removed(subs, t));
    case On(_, now) =>
      UpsertReadBack(subs, t, Persistent, now);
      ChangedReadBack(stored, Upsert(subs, t, Persistent, now));
    case ArmOnce(_, now) =>
      UpsertReadBack(subs, t, Once, now);
      ChangedReadBack(stored, Upsert(subs, t, Once, now));
  }

  /** A command whose sender has no name changes nothing. */
  lemma NamelessCommandDoesNothing(stored: State, e: Event)
    requires !e.PollTick? && JsTrim(e.ctx.senderId) == JsTrim(e.ctx.from) == JsTrim(e.ctx.to) == ""
    ensures Step(stored, e) == Outcome(stored, [])
  {
  }

  // ---------------------------------------------------------------- what a key tells apart

  predicate NoBar(t: Target) {
    '|' !in t.to && (t.accountId.Some? ==> '|' !in t.accountId.value)
  }

  function Account(t: Target): string {
    if t.accountId.Some? then t.accountId.value else ""
  }

  function Thread(t: Target): string {
    if t.messageThreadId.Some? then IntToString(t.messageThreadId.value) else ""
  }

  lemma BarWithin(a: string, b: string, rest: string, rest': string)
    requires |a| < |b| && a + "|" + rest == b + "|" + rest'
    ensures '|' in b
  {
    var s := a + "|" + rest;
    assert s[|a|] == '|' && s == b + ("|" + rest');
    assert s[|a|] == b[|a|];
  }

  lemma CutAtBar(a: string, b: string, rest: string, rest': string)
    requires '|' !in a && '|' !in b && a + "|" + rest == b + "|" + rest'
    ensures a == b && rest == rest'
  {
    var s := a + "|" + rest;
    if |a| < |b| {
      BarWithin(a, b, rest, rest');
      assert false;
    } else if |b| < |a| {
      BarWithin(b, a, rest', rest);
      assert false;
    }
    assert s[..|a|] == a && s[..|b|] == b;
    assert s[|a| + 1..] == rest && s[|b| + 1..] == rest';
  }

  /** Without bars in their names, two targets share a key exactly when they have the same
      name, account and thread. */
  lemma KeyExactly(t: Target, u: Target)
    requires NoBar(t) && NoBar(u)
    ensures Key(t) == Key(u) <==> t.to == u.to && Account(t) == Account(u) && t.messageThreadId == u.messageThreadId
  {
    KeyShape(t);
    KeyShape(u);
    if Key(t) == Key(u) {
      CutAtBar(t.to, u.to, Account(t) + "|" + Thread(t), Account(u) + "|" + Thread(u));
      CutAtBar(Account(t), Account(u), Thread(t), Thread(u));
      ThreadsDiffer(t, u);
    }
  }

  lemma KeyShape(t: Target)
    ensures Key(t) == t.to + "|" + (Account(t) + "|" + Thread(t))
  {
    assert t.to + "|" + Account(t) + "|" + Thread(t) == t.to + "|" + (Account(t) + "|" + Thread(t));
  }

  lemma ThreadsDiffer(t: Target, u: Target)
    requires Thread(t) == Thread(u)
    ensures t.messageThreadId == u.messageThreadId
  {
    if t.messageThreadId.Some? {
      IntToStringNotEmpty(t.messageThreadId.value);
    }
    if u.messageThreadId.Some? {
      IntToStringNotEmpty(u.messageThreadId.value);
    }
    if t.messageThreadId.Some? && u.messageThreadId.Some? {
      IntToStringInjective(t.messageThreadId.value, u.messageThreadId.value);
    }
  }

  /** Two chats that the key does not tell apart: a bar in a name is not escaped. */
  lemma BarConfusesKeys()
    ensures Key(Target("a|b", None, None)) == Key(Target("a", Some("b|"), None))
  {
  }
}
