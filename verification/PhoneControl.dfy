/** Arming and disarming high-risk phone commands: the allow and deny lists of the gateway
    configuration, and the state file that records what arming changed. */
module PhoneControl {
  import opened Wrappers
  import opened Ordering
  import opened JsText
  import opened Runs

  datatype Group = Camera | Screen | Writes | All

  /** The two command lists of the configuration, and the rest of it. */
  datatype Config = Config(allow: seq<string>, deny: seq<string>, rest: string)

  /** The state file; the first version knew the deny list only. */
  datatype ArmState =
    | V1(armedAtMs: int, expiresAtMs: Option<int>, removedFromDeny: seq<string>)
    | V2(armedAtMs: int, expiresAtMs: Option<int>, group: Group,
         armedCommands: seq<string>, addedToAllow: seq<string>, removedFromDeny: seq<string>)

  const CAMERA: seq<string> := ["camera.snap", "camera.clip"]
  const SCREEN: seq<string> := ["screen.record"]
  const WRITES: seq<string> := ["calendar.add", "contacts.add", "reminders.add", "sms.send"]

  // ---------------------------------------------------------------- normalised lists

  function TrimAll(values: seq<string>): seq<string> {
    if values == [] then []
    else (if JsTrim(values[0]) == "" then [] else [JsTrim(values[0])]) + TrimAll(values[1..])
  }

  function UniqSorted(values: seq<string>): seq<string> {
    SortUnique(TrimAll(values))
  }

  /** The entries of a list, read as the gateway reads them. */
  function Entries(values: seq<string>): set<string> {
    Members(TrimAll(values))
  }

  predicate IsPlain(cmd: string) {
    cmd != "" && JsTrim(cmd) == cmd
  }

  /** The entries of a list are its texts less their outer white space, blanks left out. */
  lemma {:induction false} EntriesExactly(values: seq<string>, x: string)
    ensures x in Entries(values) <==> x != "" && exists i :: 0 <= i < |values| && JsTrim(values[i]) == x
  {
    if values != [] {
      EntriesExactly(values[1..], x);
      assert forall i :: 1 <= i < |values| ==> values[i] == values[1..][i - 1];
      assert TrimAll(values) == (if JsTrim(values[0]) == "" then [] else [JsTrim(values[0])]) + TrimAll(values[1..]);
      hide JsTrim, TrimAll;
      assert x in Entries(values) <==> (x != "" && x == JsTrim(values[0])) || x in Entries(values[1..]);
      assert forall i :: 0 <= i < |values[1..]| ==> values[1..][i] == values[i + 1];
    }
  }

  lemma {:induction false} TrimAllPlain(values: seq<string>)
    ensures forall x :: x in TrimAll(values) ==> IsPlain(x)
    ensures (forall x :: x in values ==> IsPlain(x)) ==> TrimAll(values) == values
  {
    if values != [] {
      TrimAllPlain(values[1..]);
      assert values == [values[0]] + values[1..];
      if forall x :: x in values ==> IsPlain(x) {
        assert IsPlain(values[0]);
      }
    }
  }

  /** A normalised list is the ordered list of its entries, and normalising it again changes nothing. */
  lemma UniqSortedIs(values: seq<string>)
    ensures UniqSorted(values) == InOrder(Entries(values))
    ensures Entries(UniqSorted(values)) == Entries(values)
    ensures forall x :: x in Entries(values) ==> IsPlain(x)
  {
    var u := UniqSorted(values);
    TrimAllPlain(values);
    SortUniqueIsSorted(TrimAll(values));
    SortedUnique(u, InOrder(Entries(values)));
    TrimAllPlain(u);
    assert Members(u) == Members(TrimAll(values));
  }

  lemma PlainEntries(values: seq<string>)
    requires forall x :: x in values ==> IsPlain(x)
    ensures Entries(values) == Members(values)
  {
    TrimAllPlain(values);
  }

  function GroupList(g: Group): seq<string> {
    match g
    case Camera => CAMERA
    case Screen => SCREEN
    case Writes => WRITES
    case All => CAMERA + SCREEN + WRITES
  }

  function Commands(g: Group): seq<string> {
    UniqSorted(GroupList(g))
  }

  function CommandSet(g: Group): set<string> {
    Members(GroupList(g))
  }

  lemma ListsArePlain(g: Group)
    ensures forall x :: x in GroupList(g) ==> IsPlain(x)
  {
    forall x | x in CAMERA + SCREEN + WRITES
      ensures IsPlain(x)
    {
      assert x in CAMERA || x in SCREEN || x in WRITES;
      assert IsTrimmed(x);
    }
  }

  lemma CommandsAre(g: Group)
    ensures Members(Commands(g)) == CommandSet(g) && CommandSet(g) <= CommandSet(All)
    ensures forall x :: x in CommandSet(g) ==> IsPlain(x)
  {
    ListsArePlain(g);
    PlainEntries(GroupList(g));
    SortUniqueIsSorted(TrimAll(GroupList(g)));
    assert Members(Commands(g)) == Members(TrimAll(GroupList(g)));
  }

  // ---------------------------------------------------------------- what arming and disarming do

  ghost function Patch(cfg: Config, allow: set<string>, deny: set<string>): Config {
    cfg.(allow := InOrder(allow), deny := InOrder(deny))
  }

  /** What arming adds to the allow list and takes from the deny list. */
  function Added(cfg: Config, g: Group): set<string> { CommandSet(g) - Entries(cfg.allow) }

  function Taken(cfg: Config, g: Group): set<string> { CommandSet(g) * Entries(cfg.deny) }

  ghost function Armed(cfg: Config, g: Group): Config {
    Patch(cfg, Entries(cfg.allow) + CommandSet(g), Entries(cfg.deny) - CommandSet(g))
  }

  ghost function ArmRecord(cfg: Config, g: Group, durationMs: int, now: int): ArmState {
    V2(now, Some(now + durationMs), g, Commands(g), InOrder(Added(cfg, g)), InOrder(Taken(cfg, g)))
  }

  /** What disarming takes from the allow list and puts back on the deny list. */
  function ToRemove(cfg: Config, s: ArmState): set<string> {
    if s.V1? then {} else Members(s.addedToAllow) * Entries(cfg.allow)
  }

  function ToRestore(cfg: Config, s: ArmState): set<string> {
    Members(s.removedFromDeny) - Entries(cfg.deny)
  }

  /** Untouched when there is nothing to undo, and normalised otherwise. */
  ghost function Disarmed(cfg: Config, s: ArmState): Config {
    if ToRemove(cfg, s) == {} && ToRestore(cfg, s) == {} then cfg
    else Patch(cfg, Entries(cfg.allow) - ToRemove(cfg, s), PlainOf(Entries(cfg.deny) + ToRestore(cfg, s)))
  }

  /** The commands as they are written to a list. */
  function PlainOf(cmds: set<string>): set<string> {
    set c | c in cmds && JsTrim(c) != "" :: JsTrim(c)
  }

  // ---------------------------------------------------------------- the plugin as code

  class Plugin {
    var config: Config
    var armed: Option<ArmState>

    constructor (config: Config, armed: Option<ArmState>)
      ensures this.config == config && this.armed == armed
    {
      this.config, this.armed := config, armed;
    }

    /** The two sets after the commands are allowed and no longer denied, and what changed. */
    method AllowCommands(commands: seq<string>, allow0: set<string>, deny0: set<string>)
      returns (allow: set<string>, deny: set<string>, addedToAllow: seq<string>, removedFromDeny: seq<string>)
      ensures allow == allow0 + Members(commands) && deny == deny0 - Members(commands)
      ensures Members(addedToAllow) == Members(commands) - allow0
      ensures Members(removedFromDeny) == Members(commands) * deny0
    {
      allow, deny, addedToAllow, removedFromDeny := allow0, deny0, [], [];
      for i := 0 to |commands|
        invariant allow == allow0 + Members(commands[..i]) && deny == deny0 - Members(commands[..i])
        invariant Members(addedToAllow) == Members(commands[..i]) - allow0
        invariant Members(removedFromDeny) == Members(commands[..i]) * deny0
      {
        var cmd := commands[i];
        MembersSnoc(commands[..i], cmd);
        MembersSnoc(addedToAllow, cmd);
        MembersSnoc(removedFromDeny, cmd);
        assert commands[..i + 1] == commands[..i] + [cmd];
        if cmd !in allow {
          allow := allow + {cmd};
          addedToAllow := addedToAllow + [cmd];
        }
        if cmd in deny {
          deny := deny - {cmd};
          removedFromDeny := removedFromDeny + [cmd];
        }
      }
      assert commands[..|commands|] == commands;
    }

    method Arm(g: Group, durationMs: int, now: int)
      modifies this
      ensures config == Armed(old(config), g)
      ensures armed == Some(ArmRecord(old(config), g, durationMs, now))
    {
      var commands := Commands(g);
      ArmFacts(config, g);
      var allow, deny, addedToAllow, removedFromDeny :=
        AllowCommands(commands, Members(UniqSorted(config.allow)), Members(UniqSorted(config.deny)));
      SortedListIs(addedToAllow, Added(config, g));
      SortedListIs(removedFromDeny, Taken(config, g));
      var allowList := ListOf(allow);
      var denyList := ListOf(deny);
      config := config.(allow := allowList, deny := denyList);
      armed := Some(V2(now, Some(now + durationMs), g, commands, UniqSorted(addedToAllow),
        UniqSorted(removedFromDeny)));
    }

    method Spread(cmds: set<string>) returns (list: seq<string>)
      ensures Members(list) == cmds
    {
      list := [];
      var todo := cmds;
      while todo != {}
        invariant todo <= cmds && Members(list) == cmds - todo
        decreases todo
      {
        var c :| c in todo;
        MembersSnoc(list, c);
        todo := todo - {c};
        list := list + [c];
      }
    }

    /** A set spread into a list, in some order, and normalised. */
    method ListOf(cmds: set<string>) returns (list: seq<string>)
      ensures list == InOrder(PlainOf(cmds))
      ensures (forall c :: c in cmds ==> IsPlain(c)) ==> list == InOrder(cmds)
    {
      list := Spread(cmds);
      NormalisedSet(list, cmds);
      list := UniqSorted(list);
    }

    method DisarmNow() returns (changed: bool, restored: seq<string>, removed: seq<string>)
      modifies this
      ensures armed == None
      ensures config == if old(armed).None? then old(config) else Disarmed(old(config), old(armed).value)
      ensures old(armed).None? ==> !changed && restored == [] && removed == []
      ensures old(armed).Some? ==>
                && changed == (ToRemove(old(config), old(armed).value) != {}
                   || ToRestore(old(config), old(armed).value) != {})
                && removed == InOrder(PlainOf(ToRemove(old(config), old(armed).value)))
                && restored == InOrder(PlainOf(ToRestore(old(config), old(armed).value)))
    {
      if armed.None? {
        return false, [], [];
      }
      var state := armed.value;
      NormalisedMembers(config.allow);
      NormalisedMembers(config.deny);
      var allow := Members(UniqSorted(config.allow));
      var deny := Members(UniqSorted(config.deny));
      var removedSet, restoredSet := {}, {};
      if state.V2? {
        allow, removedSet := RemoveFrom(allow, state.addedToAllow);
      }
      deny, restoredSet := AddTo(deny, state.removedFromDeny);
      assert removedSet == ToRemove(config, state) && restoredSet == ToRestore(config, state);
      assert allow == Entries(config.allow) - removedSet;
      changed := removedSet != {} || restoredSet != {};
      removed := ListOf(removedSet);
      restored := ListOf(restoredSet);
      if changed {
        var allowList := ListOf(allow);
        var denyList := ListOf(deny);
        config := config.(allow := allowList, deny := denyList);
      }
      armed := None;
    }

    method RemoveFrom(allow: set<string>, cmds: seq<string>) returns (left: set<string>, removed: set<string>)
      ensures removed == Members(cmds) * allow && left == allow - Members(cmds)
    {
      left, removed := allow, {};
      for i := 0 to |cmds|
        invariant removed == Members(cmds[..i]) * allow && left == allow - Members(cmds[..i])
      {
        assert cmds[..i + 1] == cmds[..i] + [cmds[i]];
        assert Members(cmds[..i + 1]) == Members(cmds[..i]) + {cmds[i]};
        if cmds[i] in left {
          left := left - {cmds[i]};
          removed := removed + {cmds[i]};
        }
      }
      assert cmds[..|cmds|] == cmds;
    }

    method AddTo(deny: set<string>, cmds: seq<string>) returns (more: set<string>, restored: set<string>)
      ensures restored == Members(cmds) - deny && more == deny + restored
    {
      more, restored := deny, {};
      for i := 0 to |cmds|
        invariant restored == Members(cmds[..i]) - deny && more == deny + restored
      {
        assert cmds[..i + 1] == cmds[..i] + [cmds[i]];
        assert Members(cmds[..i + 1]) == Members(cmds[..i]) + {cmds[i]};
        if cmds[i] !in more {
          more := more + {cmds[i]};
          restored := restored + {cmds[i]};
        }
      }
      assert cmds[..|cmds|] == cmds;
    }

    method Tick(now: int)
      modifies this
      ensures if old(armed).Some? && IsExpired(old(armed).value, now)
              then armed == None && config == Disarmed(old(config), old(armed).value)
              else armed == old(armed) && config == old(config)
    {
      if armed.None? || armed.value.expiresAtMs.None? {
        return;
      }
      if now < armed.value.expiresAtMs.value {
        return;
      }
      var _, _, _ := DisarmNow();
    }
  }

  predicate IsExpired(s: ArmState, now: int) {
    s.expiresAtMs.Some? && now >= s.expiresAtMs.value
  }

  lemma MembersOfInOrder(xs: set<string>)
    ensures Members(InOrder(xs)) == xs
  {
  }

  lemma {:induction false} EntriesOfList(list: seq<string>)
    ensures Entries(list) == PlainOf(Members(list))
  {
    if list != [] {
      EntriesOfList(list[1..]);
      assert list == [list[0]] + list[1..];
      var head := if JsTrim(list[0]) == "" then [] else [JsTrim(list[0])];
      assert TrimAll(list) == head + TrimAll(list[1..]);
      assert Members(TrimAll(list)) == Members(head) + Members(TrimAll(list[1..]));
      assert Members(list) == {list[0]} + Members(list[1..]);
      assert PlainOf(Members(list)) == PlainOf({list[0]}) + PlainOf(Members(list[1..]));
    }
  }

  lemma MembersSnoc(list: seq<string>, c: string)
    ensures Members(list + [c]) == Members(list) + {c}
  {
  }

  lemma NormalisedSet(list: seq<string>, cmds: set<string>)
    requires Members(list) == cmds
    ensures UniqSorted(list) == InOrder(PlainOf(cmds))
    ensures (forall c :: c in cmds ==> IsPlain(c)) ==> UniqSorted(list) == InOrder(cmds)
  {
    EntriesOfList(list);
    UniqSortedIs(list);
    if forall c :: c in cmds ==> IsPlain(c) {
      PlainOfPlain(cmds);
    }
  }

  lemma PlainOfPlain(cmds: set<string>)
    requires forall c :: c in cmds ==> IsPlain(c)
    ensures PlainOf(cmds) == cmds
  {
  }

  lemma NormalisedMembers(values: seq<string>)
    ensures Members(UniqSorted(values)) == Entries(values)
    ensures forall c :: c in Entries(values) ==> IsPlain(c)
  {
    UniqSortedIs(values);
    MembersOfInOrder(Entries(values));
  }

  lemma SortedListIs(list: seq<string>, cmds: set<string>)
    requires Members(list) == cmds && forall c :: c in cmds ==> IsPlain(c)
    ensures UniqSorted(list) == InOrder(cmds)
  {
    PlainEntries(list);
    UniqSortedIs(list);
  }

  lemma ArmFacts(cfg: Config, g: Group)
    ensures Members(Commands(g)) == CommandSet(g)
    ensures Members(UniqSorted(cfg.allow)) == Entries(cfg.allow) && Members(UniqSorted(cfg.deny)) == Entries(cfg.deny)
    ensures forall c :: c in CommandSet(g) + Entries(cfg.allow) + Entries(cfg.deny) ==> IsPlain(c)
  {
    CommandsAre(g);
    UniqSortedIs(cfg.allow);
    UniqSortedIs(cfg.deny);
    MembersOfInOrder(Entries(cfg.allow));
    MembersOfInOrder(Entries(cfg.deny));
  }

  // ---------------------------------------------------------------- disarming undoes arming

  lemma EntriesOfInOrder(xs: set<string>)
    requires forall x :: x in xs ==> IsPlain(x)
    ensures Entries(InOrder(xs)) == xs
  {
    PlainEntries(InOrder(xs));
  }

  lemma ArmedEntries(cfg: Config, g: Group)
    ensures Entries(Armed(cfg, g).allow) == Entries(cfg.allow) + CommandSet(g)
    ensures Entries(Armed(cfg, g).deny) == Entries(cfg.deny) - CommandSet(g)
  {
    ArmFacts(cfg, g);
    EntriesOfInOrder(Entries(cfg.allow) + CommandSet(g));
    EntriesOfInOrder(Entries(cfg.deny) - CommandSet(g));
  }

  /** A state file whose commands are written as the lists write them; every one that arming
      writes is. */
  predicate PlainState(s: ArmState) {
    (forall c :: c in s.removedFromDeny ==> IsPlain(c)) && (s.V2? ==> forall c :: c in s.addedToAllow ==> IsPlain(c))
  }

  lemma RecordIsPlain(cfg: Config, g: Group, durationMs: int, now: int)
    ensures var s := ArmRecord(cfg, g, durationMs, now);
            PlainState(s) && Members(s.addedToAllow) == Added(cfg, g) && Members(s.removedFromDeny) == Taken(cfg, g)
  {
    ArmFacts(cfg, g);
  }

  /** Whatever happened to the lists in between, disarming undoes exactly the recorded delta. */
  lemma DisarmedEntries(cfg: Config, s: ArmState)
    requires PlainState(s)
    ensures Entries(Disarmed(cfg, s).allow) == Entries(cfg.allow) - (if s.V1? then {} else Members(s.addedToAllow))
    ensures Entries(Disarmed(cfg, s).deny) == Entries(cfg.deny) + Members(s.removedFromDeny)
    ensures Disarmed(cfg, s).rest == cfg.rest
  {
    var allow, deny := Entries(cfg.allow), Entries(cfg.deny);
    if ToRemove(cfg, s) == {} && ToRestore(cfg, s) == {} {
      NothingToUndo(allow, deny, if s.V1? then {} else Members(s.addedToAllow), Members(s.removedFromDeny));
    } else {
      NormalisedMembers(cfg.allow);
      NormalisedMembers(cfg.deny);
      PlainOfPlain(deny + ToRestore(cfg, s));
      EntriesOfInOrder(allow - ToRemove(cfg, s));
      EntriesOfInOrder(deny + ToRestore(cfg, s));
    }
  }

  lemma NothingToUndo(allow: set<string>, deny: set<string>, added: set<string>, taken: set<string>)
    requires added * allow == {} && taken - deny == {}
    ensures allow - added == allow && deny + taken == deny
  {
    assert forall c :: c in taken && c !in deny ==> c in taken - deny;
    assert forall c :: c in added && c in allow ==> c in added * allow;
  }

  /** Armed lists are already in order. */
  lemma ArmedIsNormal(cfg: Config, g: Group)
    ensures var a := Armed(cfg, g); a.allow == InOrder(Entries(a.allow)) && a.deny == InOrder(Entries(a.deny))
  {
    ArmedEntries(cfg, g);
  }

  lemma DisarmedIsNormal(cfg: Config, s: ArmState)
    requires PlainState(s) && cfg.allow == InOrder(Entries(cfg.allow)) && cfg.deny == InOrder(Entries(cfg.deny))
    ensures Disarmed(cfg, s) == Patch(cfg, Entries(Disarmed(cfg, s).allow), Entries(Disarmed(cfg, s).deny))
  {
    DisarmedEntries(cfg, s);
    var allow, deny := Entries(cfg.allow), Entries(cfg.deny);
    if !(ToRemove(cfg, s) == {} && ToRestore(cfg, s) == {}) {
      NormalisedMembers(cfg.allow);
      NormalisedMembers(cfg.deny);
      PlainOfPlain(deny + ToRestore(cfg, s));
      EntriesOfInOrder(allow - ToRemove(cfg, s));
      EntriesOfInOrder(deny + ToRestore(cfg, s));
    }
  }

  /** With nothing in between, disarming restores the normalised lists from before arming,
      and nothing else of the configuration changes. */
  lemma DisarmRestores(cfg: Config, g: Group, durationMs: int, now: int)
    ensures Disarmed(Armed(cfg, g), ArmRecord(cfg, g, durationMs, now))
            == cfg.(allow := UniqSorted(cfg.allow), deny := UniqSorted(cfg.deny))
  {
    var s, armed := ArmRecord(cfg, g, durationMs, now), Armed(cfg, g);
    RecordIsPlain(cfg, g, durationMs, now);
    ArmedEntries(cfg, g);
    ArmedIsNormal(cfg, g);
    DisarmedEntries(armed, s);
    DisarmedIsNormal(armed, s);
    UniqSortedIs(cfg.allow);
    UniqSortedIs(cfg.deny);
    BackAndForth(Entries(cfg.allow), Entries(cfg.deny), CommandSet(g));
  }

  lemma BackAndForth(allow: set<string>, deny: set<string>, cmds: set<string>)
    ensures allow + cmds - (cmds - allow) == allow && deny - cmds + (cmds * deny) == deny
  {
  }

  /** A disarm that was interrupted after writing the configuration can be run again: it
      changes nothing more. */
  lemma DisarmAgainChangesNothing(cfg: Config, s: ArmState)
    requires PlainState(s)
    ensures Disarmed(Disarmed(cfg, s), s) == Disarmed(cfg, s)
  {
    DisarmedEntries(cfg, s);
  }

  // ---------------------------------------------------------------- runs

  datatype State = State(config: Config, armed: Option<ArmState>)

  /** Commands, clock ticks and edits of the configuration by somebody else. */
  datatype Event = ArmEvent(g: Group, durationMs: int, now: int) | DisarmEvent | TickEvent(now: int)
    | EditEvent(config: Config)

  predicate Disarms(s: State, e: Event) {
    s.armed.Some? && (e.DisarmEvent? || (e.TickEvent? && IsExpired(s.armed.value, e.now)))
  }

  ghost function Step(s: State, e: Event): State {
    match e
    case ArmEvent(g, durationMs, now) => State(Armed(s.config, g), Some(ArmRecord(s.config, g, durationMs, now)))
    case EditEvent(config) => s.(config := config)
    case _ => if Disarms(s, e) then State(Disarmed(s.config, s.armed.value), None) else s
  }

  ghost function Stepper(): (State, Event) -> State {
    (s: State, e: Event) => Step(s, e)
  }

  ghost function StateAt(s: State, events: seq<Event>, k: nat): State
    requires k <= |events|
  {
    StateAfter(Stepper(), s, events, k)
  }

  /** From event i, which arms, to event j, which disarms, there are only edits and ticks
      that come too early. */
  ghost predicate ArmedFromTo(s: State, events: seq<Event>, i: nat, j: nat) {
    && i < j < |events| && events[i].ArmEvent?
    && (forall k :: i < k < j ==> !events[k].ArmEvent? && !Disarms(StateAt(s, events, k), events[k]))
    && Disarms(StateAt(s, events, j), events[j])
  }

  lemma RecordKeptByStep(s: State, e: Event)
    requires !e.ArmEvent? && !Disarms(s, e)
    ensures Stepper()(s, e).armed == s.armed
  {
  }

  lemma {:induction false} RecordKept(s: State, events: seq<Event>, i: nat, k: nat, record: Option<ArmState>)
    requires i < k <= |events| && StateAt(s, events, i + 1).armed == record
    requires forall m :: i < m < k ==> !events[m].ArmEvent? && !Disarms(StateAt(s, events, m), events[m])
    ensures StateAt(s, events, k).armed == record
    decreases k
  {
    hide Stepper, Disarms;
    if k > i + 1 {
      RecordKept(s, events, i, k - 1, record);
      RecordKeptByStep(StateAt(s, events, k - 1), events[k - 1]);
    }
  }

  /** In every run a disarm undoes exactly the delta of the most recent arm: the commands it
      added are gone from the allow list, the ones it took are back on the deny list, and all
      other entries are as the edits since then left them. */
  lemma DisarmUndoesLastArm(s: State, events: seq<Event>, i: nat, j: nat)
    requires ArmedFromTo(s, events, i, j)
    ensures var armedAt := StateAt(s, events, i).config;
            var before, after := StateAt(s, events, j).config, StateAt(s, events, j + 1);
            && after.armed.None?
            && Entries(after.config.allow) == Entries(before.allow) - Added(armedAt, events[i].g)
            && Entries(after.config.deny) == Entries(before.deny) + Taken(armedAt, events[i].g)
            && after.config.rest == before.rest
  {
    var e := events[i];
    RecordKept(s, events, i, j, StateAt(s, events, i + 1).armed);
    RecordIsPlain(StateAt(s, events, i).config, e.g, e.durationMs, e.now);
    DisarmedEntries(StateAt(s, events, j).config, StateAt(s, events, j).armed.value);
  }

  /** After event i, which arms, there are up to event j only edits and ticks before its time
      is over. */
  ghost predicate OnlyEarlyTicks(events: seq<Event>, i: nat, j: nat) {
    && i < j <= |events| && events[i].ArmEvent?
    && forall k :: i < k < j ==>
         events[k].EditEvent? || (events[k].TickEvent? && events[k].now < events[i].now + events[i].durationMs)
  }

  lemma StateStep(s: State, events: seq<Event>, k: nat)
    requires k < |events|
    ensures StateAt(s, events, k + 1) == Step(StateAt(s, events, k), events[k])
  {
  }

  /** The record of an arm that is not over: no event before its time ends it. */
  lemma {:induction false} StaysArmed(s: State, events: seq<Event>, i: nat, j: nat)
    requires OnlyEarlyTicks(events, i, j)
    ensures EndsAt(StateAt(s, events, j), events[i].now + events[i].durationMs)
    decreases j
  {
    hide Armed, Disarmed, StateAt, Step;
    var e := events[i];
    StateStep(s, events, j - 1);
    if j == i + 1 {
      ArmSetsTheEnd(StateAt(s, events, i), e);
    } else {
      StaysArmed(s, events, i, j - 1);
      EarlyStep(StateAt(s, events, j - 1), events[j - 1], e.now + e.durationMs);
    }
  }

  ghost predicate EndsAt(s: State, end: int) {
    s.armed.Some? && s.armed.value.expiresAtMs == Some(end)
  }

  /** The record of an arm tells when it was made, for which group, and the group's commands. */
  lemma RecordTells(s: State, events: seq<Event>, i: nat)
    requires i < |events| && events[i].ArmEvent?
    ensures var armed := StateAt(s, events, i + 1).armed;
            && armed.Some? && armed.value.V2?
            && armed.value.armedAtMs == events[i].now && armed.value.group == events[i].g
            && Sorted(armed.value.armedCommands)
            && forall cmd :: cmd in armed.value.armedCommands <==> IsCommandOf(events[i].g, cmd)
  {
    StateStep(s, events, i);
    var cfg, e := StateAt(s, events, i).config, events[i];
    hide StateAt, Armed, IsCommandOf, CommandSet, Commands, GroupList;
    assert StateAt(s, events, i + 1).armed == Some(ArmRecord(cfg, e.g, e.durationMs, e.now));
    hide Step, ArmRecord;
    CommandListIs(e.g);
  }

  lemma CommandListIs(g: Group)
    ensures Sorted(Commands(g)) && forall cmd :: cmd in Commands(g) <==> IsCommandOf(g, cmd)
  {
    UniqSortedIs(GroupList(g));
    CommandsAre(g);
    forall cmd
      ensures cmd in CommandSet(g) <==> IsCommandOf(g, cmd)
    {
      CommandsByName(g, cmd);
    }
    hide IsCommandOf, CommandSet;
    assert forall cmd :: cmd in Commands(g) <==> cmd in Members(Commands(g));
  }

  lemma ArmSetsTheEnd(s: State, e: Event)
    requires e.ArmEvent?
    ensures EndsAt(Step(s, e), e.now + e.durationMs)
  {
    hide Armed, Commands, Added, Taken, InOrder;
  }

  lemma EarlyStep(s: State, e: Event, end: int)
    requires EndsAt(s, end) && (e.EditEvent? || (e.TickEvent? && e.now < end))
    ensures EndsAt(Step(s, e), end) && (e.TickEvent? ==> Step(s, e) == s)
  {
    hide Armed, Disarmed;
  }

  /** An arm lasts as long as it was asked for, whatever edits come in between: no tick before
      its end disarms, every tick from then on does, and so does a disarm at any time. */
  lemma ArmLastsItsTime(s: State, events: seq<Event>, i: nat, j: nat)
    requires OnlyEarlyTicks(events, i, j) && j < |events|
    ensures StateAt(s, events, j).armed.Some?
    ensures events[j].TickEvent? ==>
              && (StateAt(s, events, j + 1).armed.None? <==> events[j].now >= events[i].now + events[i].durationMs)
              && (events[j].now < events[i].now + events[i].durationMs ==>
                    StateAt(s, events, j + 1) == StateAt(s, events, j))
    ensures events[j].DisarmEvent? ==> StateAt(s, events, j + 1).armed.None?
  {
    hide Armed, Disarmed, StateAt;
    StaysArmed(s, events, i, j);
    StateStep(s, events, j);
  }

  /** Right after an arm all commands of its group are allowed and none is denied; the rest of
      the lists is as it was. */
  lemma ArmAllowsItsGroup(s: State, events: seq<Event>, i: nat, cmd: string)
    requires i < |events| && events[i].ArmEvent?
    ensures var before, after := StateAt(s, events, i).config, StateAt(s, events, i + 1).config;
            && (IsCommandOf(events[i].g, cmd) ==> cmd in after.allow && cmd !in after.deny)
            && (!IsCommandOf(events[i].g, cmd) ==>
                  && (cmd in Entries(after.allow) <==> cmd in Entries(before.allow))
                  && (cmd in Entries(after.deny) <==> cmd in Entries(before.deny)))
            && after.rest == before.rest
  {
    var cfg, g := StateAt(s, events, i).config, events[i].g;
    StateStep(s, events, i);
    CommandsByName(g, cmd);
    ArmFacts(cfg, g);
    ArmedEntries(cfg, g);
    MembersOfInOrder(Entries(cfg.allow) + CommandSet(g));
    MembersOfInOrder(Entries(cfg.deny) - CommandSet(g));
    hide Entries, CommandSet, InOrder, StateAt;
    assert cmd in Armed(cfg, g).allow <==> cmd in Members(Armed(cfg, g).allow);
    assert cmd in Armed(cfg, g).deny <==> cmd in Members(Armed(cfg, g).deny);
  }

  /** The commands of the groups by their names. */
  predicate IsCommandOf(g: Group, cmd: string) {
    || ((g.Camera? || g.All?) && (cmd == "camera.snap" || cmd == "camera.clip"))
    || ((g.Screen? || g.All?) && cmd == "screen.record")
    || ((g.Writes? || g.All?) && (cmd == "calendar.add" || cmd == "contacts.add" || cmd == "reminders.add"
                                  || cmd == "sms.send"))
  }

  lemma CommandsByName(g: Group, cmd: string)
    ensures cmd in CommandSet(g) <==> IsCommandOf(g, cmd)
  {
    assert forall x :: x in CAMERA + SCREEN + WRITES <==> x in CAMERA || x in SCREEN || x in WRITES;
  }

  /** The entries of a list do or do not change by arming. */
  lemma UnchangedByArming(cfg: Config, g: Group)
    ensures Entries(cfg.allow) + CommandSet(g) == Entries(cfg.allow) <==> Added(cfg, g) == {}
    ensures Entries(cfg.deny) - CommandSet(g) == Entries(cfg.deny) <==> Taken(cfg, g) == {}
  {
    hide Entries, CommandSet;
    var a, d, c := Entries(cfg.allow), Entries(cfg.deny), CommandSet(g);
    if a + c == a {
      assert forall x :: x in c ==> x in a + c;
      assert c - a == {};
    } else {
      var x :| x in c && x !in a;
      assert x in c - a;
    }
    if d - c == d {
      assert forall x :: x in d ==> x in d - c;
      assert c * d == {};
    } else {
      var x :| x in d && x in c;
      assert x in c * d;
    }
  }

  /** Arming twice records the second delta only: a disarm then goes back to the state
      between the two, and leaves the first group's commands allowed. The lists from before
      both arms come back exactly when the first arm changed nothing. */
  lemma RearmForgetsFirstDelta(cfg: Config, g1: Group, g2: Group, durationMs: int, now: int)
    ensures var between := Armed(cfg, g1);
            var after := Disarmed(Armed(between, g2), ArmRecord(between, g2, durationMs, now));
            && after == between
            && Entries(after.allow) == Entries(cfg.allow) + CommandSet(g1)
            && Entries(after.deny) == Entries(cfg.deny) - CommandSet(g1)
            && (after.allow == UniqSorted(cfg.allow) && after.deny == UniqSorted(cfg.deny) <==>
                Added(cfg, g1) == {} && Taken(cfg, g1) == {})
  {
    var between := Armed(cfg, g1);
    DisarmRestores(between, g2, durationMs, now);
    ArmedEntries(cfg, g1);
    UniqSortedIs(between.allow);
    UniqSortedIs(between.deny);
    UniqSortedIs(cfg.allow);
    UniqSortedIs(cfg.deny);
    UnchangedByArming(cfg, g1);
    hide UniqSorted, InOrder, Entries, CommandSet, Disarmed, ArmRecord, Added, Taken;
  }

  /** What no run of arms, disarms and ticks gets past, starting from cfg. */
  ghost predicate Within(cfg: Config, s: State) {
    && Entries(cfg.allow) <= Entries(s.config.allow) <= Entries(cfg.allow) + CommandSet(All)
    && Entries(cfg.deny) - CommandSet(All) <= Entries(s.config.deny) <= Entries(cfg.deny)
    && s.config.rest == cfg.rest
    && (s.armed.Some? ==>
          && s.armed.value.V2? && PlainState(s.armed.value)
          && Members(s.armed.value.addedToAllow) <= CommandSet(All) - Entries(cfg.allow)
          && Members(s.armed.value.removedFromDeny) <= Entries(cfg.deny))
  }

  lemma StepStaysWithin(cfg: Config, s: State, e: Event)
    requires Within(cfg, s) && !e.EditEvent?
    ensures Within(cfg, Step(s, e))
  {
    if e.ArmEvent? {
      CommandsAre(e.g);
      ArmedEntries(s.config, e.g);
      RecordIsPlain(s.config, e.g, e.durationMs, e.now);
    } else if Disarms(s, e) {
      DisarmedEntries(s.config, s.armed.value);
    }
  }

  /** Without edits from outside, no run ever loses an allowed command, denies a command that
      was not denied, or touches a command outside the groups. */
  lemma RunStaysWithin(cfg: Config, events: seq<Event>, k: nat)
    requires k <= |events| && forall i :: 0 <= i < k ==> !events[i].EditEvent?
    ensures Within(cfg, StateAt(State(cfg, None), events, k))
  {
    forall i, t: State | 0 <= i < k && Within(cfg, t)
      ensures Within(cfg, Stepper()(t, events[i]))
    {
      StepStaysWithin(cfg, t, events[i]);
    }
    InvariantOfRun(Stepper(), (t: State) => Within(cfg, t), State(cfg, None), events, k);
  }
}
