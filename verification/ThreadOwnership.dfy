/** The thread ownership hooks: recent mentions of the agent, kept in a table with a time
    limit, and the decision whether a reply may be sent. */
module ThreadOwnership {
  import opened Text
  import opened Runs

  const MENTION_TTL_MS: int := 5 * 60 * 1000

  datatype Settings = Settings(agentName: string, botUserId: string, abTestChannels: set<string>)

  /** What the ownership service answers: the agent owns the thread, another one does (409),
      some other status, or no answer at all. */
  datatype Answer = Owned | OwnedByOther | OtherStatus | NoAnswer

  datatype Event =
    | Received(onSlack: bool, text: string, thread: string, channel: string, now: int)
    | Sending(onSlack: bool, thread: string, channel: string, answer: Answer, now: int)

  function Key(channel: string, thread: string): string {
    channel + ":" + thread
  }

  type Table = map<string, int>

  function Clean(table: Table, now: int): Table {
    map k | k in table && now - table[k] <= MENTION_TTL_MS :: table[k]
  }

  predicate IsMention(s: Settings, e: Event) {
    e.Received? && e.onSlack && e.thread != "" && e.channel != ""
    && ((s.agentName != "" && Index(e.text, "@" + s.agentName).Some?)
        || (s.botUserId != "" && Index(e.text, "<@" + s.botUserId + ">").Some?))
  }

  /** Sends for which ownership is enforced at all. */
  predicate IsEnforced(s: Settings, e: Event) {
    e.Sending? && e.onSlack && e.thread != "" && (s.abTestChannels == {} || e.channel in s.abTestChannels)
  }

  function Step(s: Settings): (Table, Event) -> Table {
    (table: Table, e: Event) =>
      if IsMention(s, e) then Clean(table, e.now)[Key(e.channel, e.thread) := e.now]
      else if IsEnforced(s, e) then Clean(table, e.now)
      else table
  }

  /** The ownership check is skipped: the table still holds a mention for the thread. */
  predicate Bypassed(table: Table, e: Event)
    requires e.Sending?
  {
    Key(e.channel, e.thread) in Clean(table, e.now)
  }

  predicate Cancels(s: Settings, table: Table, e: Event) {
    IsEnforced(s, e) && !Bypassed(table, e) && e.answer.OwnedByOther?
  }

  class Hooks {
    const settings: Settings
    var mentionedThreads: Table

    constructor (settings: Settings)
      ensures this.settings == settings && mentionedThreads == map[]
    {
      this.settings := settings;
      mentionedThreads := map[];
    }

    method CleanExpiredMentions(now: int)
      modifies this
      ensures mentionedThreads == Clean(old(mentionedThreads), now)
    {
      var todo := mentionedThreads.Keys;
      ghost var table := mentionedThreads;
      while todo != {}
        invariant todo <= table.Keys && mentionedThreads.Keys <= table.Keys && todo <= mentionedThreads.Keys
        invariant forall k :: k in mentionedThreads ==> mentionedThreads[k] == table[k]
        invariant forall k :: k in table && k !in todo ==> (k in mentionedThreads <==> now - table[k] <= MENTION_TTL_MS)
        decreases todo
      {
        var key :| key in todo;
        todo := todo - {key};
        if now - mentionedThreads[key] > MENTION_TTL_MS {
          mentionedThreads := mentionedThreads - {key};
        }
      }
    }

    method MessageReceived(e: Event)
      requires e.Received?
      modifies this
      ensures mentionedThreads == Step(settings)(old(mentionedThreads), e)
    {
      if !e.onSlack {
        return;
      }
      if e.thread == "" || e.channel == "" {
        return;
      }
      var mentioned := (settings.agentName != "" && Index(e.text, "@" + settings.agentName).Some?)
        || (settings.botUserId != "" && Index(e.text, "<@" + settings.botUserId + ">").Some?);
      if mentioned {
        CleanExpiredMentions(e.now);
        mentionedThreads := mentionedThreads[Key(e.channel, e.thread) := e.now];
      }
    }

    method MessageSending(e: Event) returns (cancel: bool)
      requires e.Sending?
      modifies this
      ensures mentionedThreads == Step(settings)(old(mentionedThreads), e)
      ensures cancel <==> Cancels(settings, old(mentionedThreads), e)
    {
      if !e.onSlack {
        return false;
      }
      if e.thread == "" {
        return false;
      }
      if settings.abTestChannels != {} && e.channel !in settings.abTestChannels {
        return false;
      }
      CleanExpiredMentions(e.now);
      if Key(e.channel, e.thread) in mentionedThreads {
        return false;
      }
      return e.answer.OwnedByOther?;
    }
  }

  // ---------------------------------------------------------------- the table against the full log

  function TableAt(s: Settings, events: seq<Event>, k: nat): Table
    requires k <= |events|
  {
    StateAfter(Step(s), map[], events, k)
  }

  ghost predicate Monotone(events: seq<Event>) {
    forall i, j :: 0 <= i < j < |events| ==> events[i].now <= events[j].now
  }

  /** Event i is a mention that counts for this key. */
  predicate Mentions(s: Settings, events: seq<Event>, i: nat, key: string)
    requires i < |events|
  {
    IsMention(s, events[i]) && Key(events[i].channel, events[i].thread) == key
  }

  /** The table holds times of mentions only, and the latest one of a key unless it was too
      old already. */
  ghost predicate Agrees(s: Settings, events: seq<Event>, k: nat, table: Table)
    requires k <= |events|
  {
    && (forall key :: key in table ==>
          exists i :: 0 <= i < k && Mentions(s, events, i, key) && events[i].now == table[key])
    && (forall i :: 0 <= i < k && IsMention(s, events[i]) ==> Covered(events, i, k, table))
  }

  /** A mention is in the table, or superseded there by a later one, or was too old at the last event. */
  predicate Covered(events: seq<Event>, i: nat, k: nat, table: Table)
    requires i < k <= |events| && events[i].Received?
  {
    var key := Key(events[i].channel, events[i].thread);
    (key in table && table[key] >= events[i].now) || events[k - 1].now - events[i].now > MENTION_TTL_MS
  }

  lemma StaysCovered(s: Settings, events: seq<Event>, i: nat, k: nat, table: Table)
    requires i < k < |events| && Monotone(events) && events[i].Received? && Covered(events, i, k, table)
    ensures Covered(events, i, k + 1, Step(s)(table, events[k]))
  {
    assert events[k - 1].now <= events[k].now && events[i].now <= events[k].now;
  }

  lemma AgreesStep(s: Settings, events: seq<Event>, k: nat, table: Table, table': Table)
    requires k < |events| && Monotone(events) && Agrees(s, events, k, table)
    requires table' == Step(s)(table, events[k])
    ensures Agrees(s, events, k + 1, table')
  {
    forall key | key in table'
      ensures exists i :: 0 <= i < k + 1 && Mentions(s, events, i, key) && events[i].now == table'[key]
    {
    }
    forall i | 0 <= i < k + 1 && IsMention(s, events[i])
      ensures Covered(events, i, k + 1, table')
    {
      if i < k {
        StaysCovered(s, events, i, k, table);
      }
    }
  }

  lemma TableUnfolds(s: Settings, events: seq<Event>, k: nat)
    requires 0 < k <= |events|
    ensures TableAt(s, events, k) == Step(s)(TableAt(s, events, k - 1), events[k - 1])
  {
  }

  lemma {:induction false} TableAgrees(s: Settings, events: seq<Event>, k: nat, table: Table)
    requires k <= |events| && Monotone(events) && table == TableAt(s, events, k)
    ensures Agrees(s, events, k, table)
  {
    if k > 0 {
      var before := TableAt(s, events, k - 1);
      TableAgrees(s, events, k - 1, before);
      TableUnfolds(s, events, k);
      AgreesStep(s, events, k - 1, before, table);
    }
  }

  /** The full, unpruned log of events holds a mention of the key that is recent enough. */
  ghost predicate RecentlyMentioned(s: Settings, events: seq<Event>, j: nat, key: string)
    requires j < |events|
  {
    exists i :: 0 <= i < j && Mentions(s, events, i, key) && events[j].now - events[i].now <= MENTION_TTL_MS
  }

  /** In every run under a clock that does not go back, the ownership check is skipped exactly
      when the full log holds a mention of the thread at most five minutes old; so a send is
      cancelled exactly when it is enforced, there is no such mention, and another agent owns
      the thread. */
  lemma TableRefinesLog(s: Settings, events: seq<Event>, j: nat)
    requires j < |events| && Monotone(events) && events[j].Sending?
    ensures var e := events[j];
            && (Bypassed(TableAt(s, events, j), e) <==> RecentlyMentioned(s, events, j, Key(e.channel, e.thread)))
            && (Cancels(s, TableAt(s, events, j), e) <==>
                  IsEnforced(s, e) && !RecentlyMentioned(s, events, j, Key(e.channel, e.thread))
                    && e.answer.OwnedByOther?)
  {
    var table, e := TableAt(s, events, j), events[j];
    var key := Key(e.channel, e.thread);
    TableAgrees(s, events, j, table);
    if Bypassed(table, e) {
      var i :| 0 <= i < j && Mentions(s, events, i, key) && events[i].now == table[key];
      assert RecentlyMentioned(s, events, j, key);
    }
    if RecentlyMentioned(s, events, j, key) {
      var i :| 0 <= i < j && Mentions(s, events, i, key) && e.now - events[i].now <= MENTION_TTL_MS;
      assert Covered(events, i, j, table);
      assert events[j - 1].now <= e.now;
    }
  }

  // ---------------------------------------------------------------- threads by their channel and time stamp

  lemma ColonWithin(c: string, d: string, t: string, u: string)
    requires |c| < |d| && Key(c, t) == Key(d, u)
    ensures ':' in d
  {
    assert Key(c, t)[|c|] == ':' && Key(d, u)[|c|] == d[|c|];
  }

  /** While channels hold no colon, the key tells all threads apart. */
  lemma KeyExactly(c: string, t: string, d: string, u: string)
    requires ':' !in c && ':' !in d
    ensures Key(c, t) == Key(d, u) <==> c == d && t == u
  {
    if Key(c, t) == Key(d, u) {
      if |c| < |d| {
        ColonWithin(c, d, t, u);
        assert false;
      } else if |d| < |c| {
        ColonWithin(d, c, u, t);
        assert false;
      }
      assert Key(c, t)[..|c|] == c && Key(d, u)[..|c|] == d;
      assert Key(c, t)[|c| + 1..] == t && Key(d, u)[|c| + 1..] == u;
    }
  }

  /** Two threads that the key does not tell apart. */
  lemma ColonConfusesKeys()
    ensures Key("a:b", "c") == Key("a", "b:c")
  {
  }

  /** A message from Slack in this thread that names the agent or its user. */
  ghost predicate NamesAgent(s: Settings, e: Event, channel: string, thread: string) {
    && e.Received? && e.onSlack && e.channel == channel && e.thread == thread && channel != "" && thread != ""
    && ((s.agentName != "" && Contains(e.text, "@" + s.agentName))
        || (s.botUserId != "" && Contains(e.text, "<@" + s.botUserId + ">")))
  }

  /** Some event before j, at most five minutes back, named the agent in this thread. */
  ghost predicate NamedWithin(s: Settings, events: seq<Event>, j: nat, channel: string, thread: string)
    requires j < |events|
  {
    exists i :: 0 <= i < j && NamesAgent(s, events[i], channel, thread) && events[j].now - events[i].now <= 300_000
  }

  /** In every run under a clock that does not go back, over channels without colons: a send is
      held back exactly when it goes to a thread on Slack for which ownership is enforced, the
      agent was not named there in the last five minutes, and the service says that another
      agent owns the thread. */
  lemma HeldBackExactly(s: Settings, events: seq<Event>, j: nat)
    requires j < |events| && Monotone(events) && events[j].Sending?
    requires forall i :: 0 <= i < |events| ==> ':' !in events[i].channel
    ensures var e := events[j];
            Cancels(s, TableAt(s, events, j), e) <==>
              && e.onSlack && e.thread != "" && (s.abTestChannels != {} ==> e.channel in s.abTestChannels)
              && !NamedWithin(s, events, j, e.channel, e.thread) && e.answer == OwnedByOther
  {
    hide TableAt, Key, Index;
    var e := events[j];
    var key := Key(e.channel, e.thread);
    TableRefinesLog(s, events, j);
    forall i | 0 <= i < j && e.thread != ""
      ensures Mentions(s, events, i, key) <==> NamesAgent(s, events[i], e.channel, e.thread)
    {
      KeyExactly(events[i].channel, events[i].thread, e.channel, e.thread);
    }
    if e.thread != "" {
      if RecentlyMentioned(s, events, j, key) {
        var i :| 0 <= i < j && Mentions(s, events, i, key) && e.now - events[i].now <= MENTION_TTL_MS;
        assert NamesAgent(s, events[i], e.channel, e.thread);
      }
      if NamedWithin(s, events, j, e.channel, e.thread) {
        var i :| 0 <= i < j && NamesAgent(s, events[i], e.channel, e.thread) && e.now - events[i].now <= 300_000;
        assert Mentions(s, events, i, key);
      }
    }
  }
}
