/** The drop tracker of the karuta cog (karuta/karuta.py) as a state machine.

    The state is what the cog keeps in its configuration store and in its
    cache: the daily and weekly counters of the one guild it serves, the two
    persisted reset watermarks, and the cached copies of those watermarks
    that the reset task reads. Two events change it: a message arriving
    (`OnMessage`, the `drop_counter` listener) and a minute passing (`Tick`,
    one run of `auto_reset_task`). Everything the cog learns from the chat
    platform — whether a user id resolves to a member, whether the role, the
    guild and the log channel exist — is an input. */
module Karuta {
  import opened Options
  import opened Decimal
  import opened DropRegex
  import opened Counters
  import opened Leaderboard
  import opened Schedule

  const KarutaId: nat := 646937666251915264
  const ElegantGuild: nat := 961115362051620884
  const WhitelistedChannels: seq<nat> := [1051328495571181588, 1106602671416299540, 1062345872647659620]

  /** The daily count at which a member earns the drop role. */
  const MinDrops: nat := 3

  /** 2023-03-19 00:00 UTC (a Sunday, ISO week 11): the registered default of
      both watermarks. */
  const DefaultTime: Instant := Instant(738598, 0, 11)

  datatype Kind = Daily | Weekly

  datatype Message = Message(guild: Option<nat>, author: nat, channel: nat, content: string)

  /** What the listener can see of the guild: the user ids that resolve to a
      member, whether the drop role exists, and who already holds it. */
  datatype Guild = Guild(members: set<nat>, roleExists: bool, roleHolders: set<nat>)

  /** What the reset routines can see: whether the guild and its drop-log
      channel can be found. */
  datatype Env = Env(guildFound: bool, logChannelFound: bool)

  datatype State = State(
    daily: seq<Entry>,
    weekly: seq<Entry>,
    lastDaily: Instant,
    lastWeekly: Instant,
    cachedDaily: Instant,
    cachedWeekly: Instant
  )

  predicate Valid(st: State) {
    IsDict(st.daily) && IsDict(st.weekly)
  }

  /** The cache agrees with the persisted watermarks. */
  predicate Coherent(st: State) {
    st.cachedDaily == st.lastDaily && st.cachedWeekly == st.lastWeekly
  }

  predicate SameWatermarks(a: State, b: State) {
    a.lastDaily == b.lastDaily && a.lastWeekly == b.lastWeekly
    && a.cachedDaily == b.cachedDaily && a.cachedWeekly == b.cachedWeekly
  }

  /** Empty counters and default watermarks, cached once at start-up. */
  const Initial: State := State([], [], DefaultTime, DefaultTime, DefaultTime, DefaultTime)

  function Counter(st: State, kind: Kind): seq<Entry> {
    match kind
    case Daily => st.daily
    case Weekly => st.weekly
  }

  /** The counter key of a member: `str(member.id)`. */
  function Key(member: nat): string {
    ShowNat(member)
  }

  /** The author, guild and channel filters of the listener. */
  predicate Accepted(msg: Message) {
    msg.guild == Some(ElegantGuild) && msg.author == KarutaId && msg.channel in WhitelistedChannels
  }

  /** `get_drops`: the member's stored count of the given kind, or 0. */
  function GetDrops(st: State, kind: Kind, member: nat): (n: nat)
    ensures Key(member) !in Users(Counter(st, kind)) ==> n == 0
    ensures IsDict(Counter(st, kind)) ==>
      forall i :: 0 <= i < |Counter(st, kind)| && Counter(st, kind)[i].user == Key(member) ==>
        n == Counter(st, kind)[i].count
  {
    Get(Counter(st, kind), Key(member))
  }

  /** The outcome of one message: the new state, the member credited with a
      drop (if any), and whether the drop role is to be granted. */
  datatype Heard = Heard(state: State, credited: Option<nat>, grantRole: bool)

  /** `drop_counter`: credit the first mentioned member with a drop. */
  function OnMessage(st: State, msg: Message, g: Guild): (h: Heard)
    requires Valid(st)
    ensures Valid(h.state)
    ensures SameWatermarks(h.state, st)
    ensures h.credited.None? ==> h.state == st && !h.grantRole
    ensures h.credited.Some? ==> Accepted(msg) && h.credited.value in g.members
    ensures h.credited.Some? ==>
      var k := Key(h.credited.value);
      && Get(h.state.daily, k) == Get(st.daily, k) + 1
      && Get(h.state.weekly, k) == Get(st.weekly, k) + 1
      && (forall v :: v != k ==> Get(h.state.daily, v) == Get(st.daily, v))
      && (forall v :: v != k ==> Get(h.state.weekly, v) == Get(st.weekly, v))
    // the maps change only by that one assignment: entries keep their place,
    // and a new key is appended
    ensures h.credited.Some? ==>
      && h.state.daily == Increment(st.daily, Key(h.credited.value))
      && h.state.weekly == Increment(st.weekly, Key(h.credited.value))
    // credited exactly when the message is accepted and its first match names a member
    ensures h.credited.Some? ==>
      FirstMatch(msg.content).Some? && h.credited.value == ParseNat(FirstMatch(msg.content).value.m.user)
    ensures (Accepted(msg) && FirstMatch(msg.content).Some?
             && ParseNat(FirstMatch(msg.content).value.m.user) in g.members) ==>
      h.credited == Some(ParseNat(FirstMatch(msg.content).value.m.user))
    // the role is due once the member had MinDrops - 1 drops before this one
    ensures h.grantRole <==>
      && h.credited.Some?
      && GetDrops(st, Daily, h.credited.value) + 1 >= MinDrops
      && g.roleExists
      && h.credited.value !in g.roleHolders
  {
    if !Accepted(msg) then
      Heard(st, None, false)
    else
      match FirstMatch(msg.content)
      case None => Heard(st, None, false)
      case Some(found) =>
        var id := ParseNat(found.m.user);
        if id !in g.members then Heard(st, None, false)
        else
          var key := Key(id);
          IncrementCounts(st.daily, key);
          IncrementCounts(st.weekly, key);
          var next := st.(daily := Increment(st.daily, key), weekly := Increment(st.weekly, key));
          Heard(next, Some(id), Get(next.daily, key) >= MinDrops && g.roleExists && id !in g.roleHolders)
  }

  /** Per member: the credited member's daily and weekly counts go up by one,
      everyone else's stay as they were. */
  lemma OnMessageCounts(st: State, msg: Message, g: Guild, kind: Kind, member: nat)
    requires Valid(st)
    ensures GetDrops(OnMessage(st, msg, g).state, kind, member)
         == GetDrops(st, kind, member) + (if OnMessage(st, msg, g).credited == Some(member) then 1 else 0)
  {
    var h := OnMessage(st, msg, g);
    if h.credited.Some? && h.credited.value != member {
      if Key(member) == Key(h.credited.value) {
        ShowNatInjective(member, h.credited.value);
      }
    }
  }

  /** Only the first announcement in a message counts: the credited id is the
      number in the leftmost occurrence of the drop pattern, and a message
      with no occurrence changes nothing. */
  lemma OnMessageCreditsFirstMention(st: State, msg: Message, g: Guild)
    requires Valid(st)
    ensures OnMessage(st, msg, g).credited.Some? ==>
      exists p: nat, u, c ::
        && p <= |msg.content|
        && MatchesAt(msg.content, p, u, c)
        && ParseNat(u) == OnMessage(st, msg, g).credited.value
        && (forall q: nat, u', c' :: q < p ==> !MatchesAt(msg.content, q, u', c'))
    ensures (forall p: nat, u, c :: p <= |msg.content| ==> !MatchesAt(msg.content, p, u, c)) ==>
      OnMessage(st, msg, g) == Heard(st, None, false)
    ensures forall p: nat, u, c ::
      && p <= |msg.content|
      && MatchesAt(msg.content, p, u, c)
      && (forall q: nat, u', c' :: q < p ==> !MatchesAt(msg.content, q, u', c'))
      && Accepted(msg) && ParseNat(u) in g.members
      ==> OnMessage(st, msg, g).credited == Some(ParseNat(u))
  {
    var h := OnMessage(st, msg, g);
    FirstMatchIsLeftmost(msg.content);
    var first := FirstMatch(msg.content);
    if h.credited.Some? {
      var p, u, c := first.value.pos, first.value.m.user, first.value.m.cards;
      assert MatchesAt(msg.content, p, u, c);
    }
    if first.Some? {
      var p, u, c := first.value.pos, first.value.m.user, first.value.m.cards;
      assert p <= |msg.content| && MatchesAt(msg.content, p, u, c);
    }
    forall p: nat, u, c |
      && p <= |msg.content|
      && MatchesAt(msg.content, p, u, c)
      && (forall q: nat, u', c' :: q < p ==> !MatchesAt(msg.content, q, u', c'))
      && Accepted(msg) && ParseNat(u) in g.members
      ensures h.credited == Some(ParseNat(u))
    {
      LeftmostIsFirst(msg.content, p, u, c);
    }
  }

  /** A leftmost occurrence of the pattern is the first match, captures
      included. */
  lemma LeftmostIsFirst(s: string, p: nat, u: string, c: char)
    requires p <= |s| && MatchesAt(s, p, u, c)
    requires forall q: nat, u', c' :: q < p ==> !MatchesAt(s, q, u', c')
    ensures FirstMatch(s) == Some(Found(p, DropMatch(u, c)))
  {
    FirstMatchIsLeftmost(s);
    var f := FirstMatch(s).value;
    assert MatchesAt(s, f.pos, f.m.user, f.m.cards);
    MatchAtComplete(s, p, u, c);
  }

  /** What a reset routine leaves behind, and the leaderboard it posted. */
  datatype ResetOutcome = ResetOutcome(state: State, posted: Option<seq<Line>>)

  /** `reset_daily_drops`: rank the daily counts, clear them, move the daily
      watermark to now, and post the ranking if the log channel exists. */
  function ResetDaily(st: State, now: Instant, env: Env): (r: ResetOutcome)
    requires Valid(st)
    ensures Valid(r.state)
    ensures r.state.weekly == st.weekly && r.state.lastWeekly == st.lastWeekly
    ensures r.state.cachedDaily == st.cachedDaily && r.state.cachedWeekly == st.cachedWeekly
    ensures !env.guildFound ==> r.state == st
    ensures env.guildFound ==> r.state.lastDaily == now && r.state.daily == []
    ensures r.posted.Some? <==> env.guildFound && env.logChannelFound
    // the posted ranking is of the counts as they were before the reset
    ensures r.posted.Some? ==> r.posted.value == Board(st.daily)
  {
    if !env.guildFound then ResetOutcome(st, None)
    else
      var board := Board(st.daily);
      var next := st.(daily := [], lastDaily := now);
      ResetOutcome(next, if env.logChannelFound then Some(board) else None)
  }

  /** `reset_weekly_drops`: the same for the weekly counts. */
  function ResetWeekly(st: State, now: Instant, env: Env): (r: ResetOutcome)
    requires Valid(st)
    ensures Valid(r.state)
    ensures r.state.daily == st.daily && r.state.lastDaily == st.lastDaily
    ensures r.state.cachedDaily == st.cachedDaily && r.state.cachedWeekly == st.cachedWeekly
    ensures !env.guildFound ==> r.state == st
    ensures env.guildFound ==> r.state.lastWeekly == now && r.state.weekly == []
    ensures r.posted.Some? <==> env.guildFound && env.logChannelFound
    ensures r.posted.Some? ==> r.posted.value == Board(st.weekly)
  {
    if !env.guildFound then ResetOutcome(st, None)
    else
      var board := Board(st.weekly);
      var next := st.(weekly := [], lastWeekly := now);
      ResetOutcome(next, if env.logChannelFound then Some(board) else None)
  }

  /** One run of the reset task: the new state and the leaderboards posted. */
  datatype TickOutcome = TickOutcome(state: State, dailyBoard: Option<seq<Line>>, weeklyBoard: Option<seq<Line>>)

  /** `auto_reset_task` at instant `now`, applying the given weekly rule
      (`AsWritten` is the source's). The weekly condition is checked only
      once the daily one has fired, against the cached watermark; after a
      firing the cache is refreshed from the persisted watermarks. */
  function Tick(st: State, now: Instant, env: Env, rule: WeeklyRule): (r: TickOutcome)
    requires Valid(st)
    ensures Valid(r.state)
    ensures !DailyDue(now, st.cachedDaily) ==> r == TickOutcome(st, None, None)
    ensures DailyDue(now, st.cachedDaily) ==> Coherent(r.state)
    ensures Coherent(st) ==> Coherent(r.state)
    // daily counters: emptied exactly when the daily reset fires and the guild is found
    ensures DailyDue(now, st.cachedDaily) && env.guildFound ==>
      r.state.lastDaily == now && r.state.daily == []
    ensures !(DailyDue(now, st.cachedDaily) && env.guildFound) ==>
      r.state.daily == st.daily && r.state.lastDaily == st.lastDaily
    // weekly counters: only inside a daily reset, and only when the weekly rule fires
    ensures DailyDue(now, st.cachedDaily) && WeeklyFires(rule, now, st.cachedWeekly) && env.guildFound ==>
      r.state.lastWeekly == now && r.state.weekly == []
    ensures !(DailyDue(now, st.cachedDaily) && WeeklyFires(rule, now, st.cachedWeekly) && env.guildFound) ==>
      r.state.weekly == st.weekly && r.state.lastWeekly == st.lastWeekly
    // a board is posted exactly when its reset runs and the log channel is found;
    // it ranks the counts from before the reset
    ensures r.dailyBoard.Some? <==> DailyDue(now, st.cachedDaily) && env.guildFound && env.logChannelFound
    ensures r.dailyBoard.Some? ==> r.dailyBoard.value == Board(st.daily)
    ensures r.weeklyBoard.Some? <==>
      DailyDue(now, st.cachedDaily) && WeeklyFires(rule, now, st.cachedWeekly) && env.guildFound && env.logChannelFound
    ensures r.weeklyBoard.Some? ==> r.weeklyBoard.value == Board(st.weekly)
  {
    if DailyDue(now, st.cachedDaily) then
      var d := ResetDaily(st, now, env);
      var w := if WeeklyFires(rule, now, st.cachedWeekly) then ResetWeekly(d.state, now, env) else ResetOutcome(d.state, None);
      var s := w.state;
      TickOutcome(s.(cachedDaily := s.lastDaily, cachedWeekly := s.lastWeekly), d.posted, w.posted)
    else
      TickOutcome(st, None, None)
  }

  /** The registered defaults: empty counters, both watermarks at
      2023-03-19, and the cache holding the same instants. */
  lemma InitialState(kind: Kind, member: nat)
    ensures Valid(Initial) && Coherent(Initial)
    ensures GetDrops(Initial, kind, member) == 0
    ensures Board(Counter(Initial, kind)) == []
  {
  }

  /** Once past 06:30 on a date, a tick with the guild found leaves nothing
      for any later tick on the same date to do, whatever the weekly rule. */
  lemma DailyResetOncePerDate(st: State, now: Instant, env: Env, rule: WeeklyRule,
                              later: Instant, env': Env, rule': WeeklyRule)
    requires Valid(st)
    requires now.micros > ResetTimeOfDay && env.guildFound
    requires later.day <= now.day
    ensures Tick(Tick(st, now, env, rule).state, later, env', rule')
         == TickOutcome(Tick(st, now, env, rule).state, None, None)
  {
  }

  /** After a weekly reset under the corrected rule, no later tick in the
      same ISO week clears the weekly counters again. */
  lemma WeeklyResetOncePerWeek(st: State, now: Instant, env: Env, later: Instant, env': Env)
    requires Valid(st)
    requires DailyDue(now, st.cachedDaily) && WeeklyDue(now, st.cachedWeekly) && env.guildFound
    requires WeekStart(later) <= WeekStart(now)
    ensures Tick(Tick(st, now, env, Corrected).state, later, env', Corrected).state.weekly
         == Tick(st, now, env, Corrected).state.weekly
    ensures Tick(Tick(st, now, env, Corrected).state, later, env', Corrected).weeklyBoard.None?
  {
  }

  /** When the guild cannot be found the reset does nothing and the cache is
      refreshed to the same watermarks, so the next tick tries again. */
  lemma ResetRetriedWithoutGuild(st: State, now: Instant, env: Env, rule: WeeklyRule)
    requires Valid(st) && Coherent(st)
    requires !env.guildFound
    ensures Tick(st, now, env, rule) == TickOutcome(st, None, None)
  {
  }

  /** With the corrected weekly rule, the first Monday reset of 2024 empties
      the weekly counters that were last reset on 2023-12-25. */
  lemma WeeklyResetAtNewYear(st: State, env: Env)
    requires Valid(st) && Coherent(st)
    requires st.lastDaily == Christmas2023 && st.lastWeekly == Christmas2023
    requires env.guildFound
    ensures Tick(st, NewYear2024, env, Corrected).state.weekly == []
    ensures Tick(st, NewYear2024, env, Corrected).state.lastWeekly == NewYear2024
  {
  }

  /** As written, the same tick empties the daily counters but leaves the
      weekly counters and their watermark as they were, and posts no weekly
      board. */
  lemma WeeklyResetSkippedAtNewYear(st: State, env: Env)
    requires Valid(st) && Coherent(st)
    requires st.lastDaily == Christmas2023 && st.lastWeekly == Christmas2023
    requires env.guildFound
    ensures Tick(st, NewYear2024, env, AsWritten).state.daily == []
    ensures Tick(st, NewYear2024, env, AsWritten).state.weekly == st.weekly
    ensures Tick(st, NewYear2024, env, AsWritten).state.lastWeekly == Christmas2023
    ensures Tick(st, NewYear2024, env, AsWritten).weeklyBoard.None?
  {
  }

}
