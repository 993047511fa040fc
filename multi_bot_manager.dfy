/** The processor pool: the main bot, which does all talking to users, and
    the processing bots, which only fetch, each with an in-flight counter. */
module MultiBot {
  import opened Wrappers
  import opened Text
  import opened Dicts
  import opened Clients

  /** The key under which the i-th configured token's bot is registered. */
  function ProcessorKey(i: nat): string
  {
    "processor_" + NatToString(i)
  }

  /** Distinct token positions give distinct keys. */
  lemma ProcessorKeyInjective(i: nat, j: nat)
    requires ProcessorKey(i) == ProcessorKey(j)
    ensures i == j
  {
    var p := "processor_";
    assert ProcessorKey(i)[|p|..] == NatToString(i);
    assert ProcessorKey(j)[|p|..] == NatToString(j);
    IntToStringInjective(i, j);
  }

  /** The first key, in insertion order, whose bot is logged in as `meId`:
      the entry the `for ... break` loops of increment and decrement reach. */
  function FirstMatch(keys: seq<string>, bots: map<string, Client>, meId: int): (r: Option<string>)
    requires forall k :: k in keys ==> k in bots
    ensures r.Some? ==> r.value in keys && bots[r.value].meId == meId
    ensures r.None? ==> forall k :: k in keys ==> bots[k].meId != meId
  {
    if keys == [] then None
    else if bots[keys[0]].meId == meId then Some(keys[0])
    else FirstMatch(keys[1..], bots, meId)
  }

  /** The counters after `increment_processor_load` when `target` is the
      first processor logged in as the given bot. */
  function Incremented(loads: map<string, int>, target: Option<string>): map<string, int>
    requires target.Some? ==> target.value in loads
  {
    if target.Some? then loads[target.value := loads[target.value] + 1] else loads
  }

  /** The counters after `decrement_processor_load`: the counter floors at zero. */
  function Decremented(loads: map<string, int>, target: Option<string>): map<string, int>
    requires target.Some? ==> target.value in loads
  {
    if target.Some? then loads[target.value := Max0(loads[target.value] - 1)] else loads
  }

  function Max0(x: int): nat
  {
    if x < 0 then 0 else x
  }

  function IncrementedTimes(loads: map<string, int>, target: Option<string>, n: nat): (r: map<string, int>)
    requires target.Some? ==> target.value in loads
    ensures r.Keys == loads.Keys
  {
    if n == 0 then loads else Incremented(IncrementedTimes(loads, target, n - 1), target)
  }

  function DecrementedTimes(loads: map<string, int>, target: Option<string>, n: nat): (r: map<string, int>)
    requires target.Some? ==> target.value in loads
    ensures r.Keys == loads.Keys
  {
    if n == 0 then loads else Decremented(DecrementedTimes(loads, target, n - 1), target)
  }

  /** n increments raise the target's counter by n and leave every other alone. */
  lemma {:induction false} IncrementedTimesAdds(loads: map<string, int>, target: Option<string>, n: nat)
    requires target.Some? ==> target.value in loads
    ensures IncrementedTimes(loads, target, n)
         == if target.Some? then loads[target.value := loads[target.value] + n] else loads
  {
    if n > 0 {
      IncrementedTimesAdds(loads, target, n - 1);
    }
  }

  /** n decrements lower the target's counter by n, but never below zero. */
  lemma {:induction false} DecrementedTimesSubtracts(loads: map<string, int>, target: Option<string>, n: nat)
    requires target.Some? ==> target.value in loads && loads[target.value] >= 0
    ensures DecrementedTimes(loads, target, n)
         == if target.Some? then loads[target.value := Max0(loads[target.value] - n)] else loads
  {
    if n > 0 {
      DecrementedTimesSubtracts(loads, target, n - 1);
      if target.Some? {
        var k := target.value;
        var prev := DecrementedTimes(loads, target, n - 1);
        assert prev[k] == Max0(loads[k] - (n - 1));
        assert Max0(prev[k] - 1) == Max0(loads[k] - n);
        assert DecrementedTimes(loads, target, n) == prev[k := Max0(prev[k] - 1)];
        assert prev[k := Max0(prev[k] - 1)] == loads[k := Max0(loads[k] - n)];
      }
    }
  }

  /** n leases of a bot followed by n releases restore every counter. */
  lemma LeasesThenReleasesRestore(loads: map<string, int>, target: Option<string>, n: nat)
    requires target.Some? ==> target.value in loads && loads[target.value] >= 0
    ensures DecrementedTimes(IncrementedTimes(loads, target, n), target, n) == loads
  {
    IncrementedTimesAdds(loads, target, n);
    DecrementedTimesSubtracts(IncrementedTimes(loads, target, n), target, n);
  }

  /** The two dicts list the same keys in the same order. */
  ghost predicate Aligned(loads: Dict<string, int>, bots: Dict<string, Client>)
  {
    bots.Valid() && loads.keys == bots.keys && loads.entries.Keys == bots.entries.Keys
  }

  /** Every counter is non-negative. */
  ghost predicate NonNegative(loads: map<string, int>)
  {
    forall k :: k in loads ==> loads[k] >= 0
  }

  /** The processors registered by the first `n` tokens of
      `initialize_multi_bots`: each bot that started goes in under its key. */
  function RegisteredBots(bots: map<string, Client>, started: seq<Option<Client>>, n: nat): map<string, Client>
    requires n <= |started|
  {
    if n == 0 then bots
    else
      var r := RegisteredBots(bots, started, n - 1);
      if started[n - 1].Some? then r[ProcessorKey(n) := started[n - 1].value] else r
  }

  /** The counters after the first `n` tokens: zero for each bot that started. */
  function RegisteredLoads(loads: map<string, int>, started: seq<Option<Client>>, n: nat): map<string, int>
    requires n <= |started|
  {
    if n == 0 then loads
    else
      var r := RegisteredLoads(loads, started, n - 1);
      if started[n - 1].Some? then r[ProcessorKey(n) := 0] else r
  }

  /** The bot of the (i+1)-th token, if it started, is registered under
      `processor_{i+1}`; a token that failed, or is not reached yet, leaves
      its key as it was. */
  lemma {:induction false} RegisteredBotsAt(bots: map<string, Client>, started: seq<Option<Client>>, n: nat, i: nat)
    requires n <= |started| && i < |started|
    ensures i < n && started[i].Some? ==>
      ProcessorKey(i + 1) in RegisteredBots(bots, started, n) && RegisteredBots(bots, started, n)[ProcessorKey(i + 1)] == started[i].value
    ensures n <= i || started[i].None? ==>
      && (ProcessorKey(i + 1) in RegisteredBots(bots, started, n) <==> ProcessorKey(i + 1) in bots)
      && (ProcessorKey(i + 1) in bots ==> RegisteredBots(bots, started, n)[ProcessorKey(i + 1)] == bots[ProcessorKey(i + 1)])
  {
    if n > 0 {
      RegisteredBotsAt(bots, started, n - 1, i);
      if i != n - 1 && ProcessorKey(i + 1) == ProcessorKey(n) {
        ProcessorKeyInjective(i + 1, n);
      }
    }
  }

  /** Registration adds no key but those of bots that started. */
  lemma {:induction false} RegisteredBotsOnlyStarted(bots: map<string, Client>, started: seq<Option<Client>>, n: nat, k: string)
    requires n <= |started|
    requires k in RegisteredBots(bots, started, n) && k !in bots
    ensures exists i :: 0 <= i < n && started[i].Some? && k == ProcessorKey(i + 1)
  {
    var r := RegisteredBots(bots, started, n - 1);
    if k in r {
      RegisteredBotsOnlyStarted(bots, started, n - 1, k);
    } else {
      assert started[n - 1].Some? && k == ProcessorKey(n);
    }
  }

  /** The counter of a bot that started is zero; a token that failed, or is
      not reached yet, leaves its key's counter as it was. */
  lemma {:induction false} RegisteredLoadsAt(loads: map<string, int>, started: seq<Option<Client>>, n: nat, i: nat)
    requires n <= |started| && i < |started|
    ensures i < n && started[i].Some? ==>
      ProcessorKey(i + 1) in RegisteredLoads(loads, started, n) && RegisteredLoads(loads, started, n)[ProcessorKey(i + 1)] == 0
    ensures n <= i || started[i].None? ==>
      && (ProcessorKey(i + 1) in RegisteredLoads(loads, started, n) <==> ProcessorKey(i + 1) in loads)
      && (ProcessorKey(i + 1) in loads ==> RegisteredLoads(loads, started, n)[ProcessorKey(i + 1)] == loads[ProcessorKey(i + 1)])
  {
    if n > 0 {
      RegisteredLoadsAt(loads, started, n - 1, i);
      if i != n - 1 && ProcessorKey(i + 1) == ProcessorKey(n) {
        ProcessorKeyInjective(i + 1, n);
      }
    }
  }

  /** One of the values in `get_bot_stats`' result dict. */
  datatype StatValue = Flag(flag: bool) | Name(name: string) | Count(count: int) | Loads(loads: map<string, int>)

  class MultiBotManager {
    var processingBots: Dict<string, Client>
    var botLoads: Dict<string, int>
    var active: bool
    var mainBot: Option<Client>

    /** The two dicts list the same keys in the same order, every counter is
        non-negative, and the pool is active only when it has a processor. */
    ghost predicate Valid()
      reads this
    {
      && Aligned(botLoads, processingBots) && NonNegative(botLoads.entries)
      && (active ==> processingBots.keys != [])
    }

    constructor ()
      ensures Valid() && !active && mainBot == None
      ensures processingBots.keys == [] && processingBots.entries == map[]
      ensures botLoads.keys == [] && botLoads.entries == map[]
    {
      processingBots := Empty();
      botLoads := Empty();
      active := false;
      mainBot := None;
    }

    /** `initialize_multi_bots`: `started[i]` is the client the (i+1)-th
        token yielded, or None when starting it raised. */
    method InitializeMultiBots(main: Client, multiBotMode: bool, started: seq<Option<Client>>)
      requires Valid()
      modifies this
      ensures Valid() && mainBot == Some(main)
      ensures !multiBotMode || started == [] ==>
        !active && processingBots == old(processingBots) && botLoads == old(botLoads)
      ensures multiBotMode && started != [] ==>
        && processingBots.entries == RegisteredBots(old(processingBots.entries), started, |started|)
        && botLoads.entries == RegisteredLoads(old(botLoads.entries), started, |started|)
        && active == (processingBots.keys != [])
    {
      mainBot := Some(main);
      if !multiBotMode || started == [] {
        active := false;
        return;
      }
      ghost var bots0 := processingBots.entries;
      ghost var loads0 := botLoads.entries;
      var i := 0;
      while i < |started|
        invariant 0 <= i <= |started|
        invariant Aligned(botLoads, processingBots) && NonNegative(botLoads.entries) && mainBot == Some(main)
        invariant processingBots.entries == RegisteredBots(bots0, started, i)
        invariant botLoads.entries == RegisteredLoads(loads0, started, i)
      {
        if started[i].Some? {
          RegisterProcessor(ProcessorKey(i + 1), started[i].value);
        }
        i := i + 1;
      }
      active := processingBots.keys != [];
    }

    /** One bot that started in `initialize_multi_bots`: registered under
        its key with a zero counter. */
    method RegisterProcessor(botId: string, bot: Client)
      requires Aligned(botLoads, processingBots) && NonNegative(botLoads.entries)
      modifies this
      ensures Aligned(botLoads, processingBots) && NonNegative(botLoads.entries)
      ensures processingBots.entries == old(processingBots.entries)[botId := bot]
      ensures botLoads.entries == old(botLoads.entries)[botId := 0]
      ensures active == old(active) && mainBot == old(mainBot)
    {
      processingBots := Put(processingBots, botId, bot);
      botLoads := Put(botLoads, botId, 0);
    }

    /** `get_least_loaded_processor`. */
    method GetLeastLoadedProcessor() returns (r: Option<Client>)
      requires Valid()
      ensures !active || botLoads.keys == [] ==> r == mainBot
      ensures active && botLoads.keys != [] ==>
        && r.Some?
        && var k := MinKey(botLoads);
           r.value == processingBots.entries[k]
           && forall j :: j in botLoads.entries ==> botLoads.entries[k] <= botLoads.entries[j]
    {
      if !active || botLoads.keys == [] {
        return mainBot;
      }
      var minLoadBot := MinKey(botLoads);
      if minLoadBot in processingBots.entries {
        r := Some(processingBots.entries[minLoadBot]);
      } else {
        r := mainBot;
      }
    }

    /** `get_random_processor`: `random.choice` is any processor. */
    method GetRandomProcessor() returns (r: Option<Client>)
      requires Valid()
      ensures !active || processingBots.keys == [] ==> r == mainBot
      ensures active && processingBots.keys != [] ==> r.Some? && r.value in processingBots.entries.Values
    {
      if !active || processingBots.keys == [] {
        return mainBot;
      }
      assert processingBots.keys[0] in processingBots.entries;
      var botId :| botId in processingBots.entries;
      r := Some(processingBots.entries[botId]);
    }

    /** `get_main_bot`. */
    function GetMainBot(): Option<Client>
      reads this
    {
      mainBot
    }

    /** `increment_processor_load`. */
    method IncrementProcessorLoad(bot: Client)
      requires Valid()
      modifies this
      ensures Valid()
      ensures processingBots == old(processingBots) && active == old(active) && mainBot == old(mainBot)
      ensures botLoads.keys == old(botLoads.keys)
      ensures botLoads.entries
           == Incremented(old(botLoads.entries), FirstMatch(processingBots.keys, processingBots.entries, bot.meId))
    {
      var target := FindProcessor(bot);
      if target.Some? {
        var botId := target.value;
        botLoads := Dict(botLoads.keys, botLoads.entries[botId := botLoads.entries[botId] + 1]);
      }
    }

    /** `decrement_processor_load`. */
    method DecrementProcessorLoad(bot: Client)
      requires Valid()
      modifies this
      ensures Valid()
      ensures processingBots == old(processingBots) && active == old(active) && mainBot == old(mainBot)
      ensures botLoads.keys == old(botLoads.keys)
      ensures botLoads.entries
           == Decremented(old(botLoads.entries), FirstMatch(processingBots.keys, processingBots.entries, bot.meId))
    {
      var target := FindProcessor(bot);
      if target.Some? {
        var botId := target.value;
        botLoads := Dict(botLoads.keys, botLoads.entries[botId := Max0(botLoads.entries[botId] - 1)]);
      }
    }

    /** The `for bot_id, bot_instance in processing_bots.items()` scan of
        increment and decrement, up to its `break`: the first key, in
        insertion order, whose bot is logged in as `bot`. */
    method FindProcessor(bot: Client) returns (r: Option<string>)
      requires Valid()
      ensures r == FirstMatch(processingBots.keys, processingBots.entries, bot.meId)
      ensures r.Some? ==> r.value in botLoads.entries && processingBots.entries[r.value].meId == bot.meId
    {
      var i := 0;
      while i < |processingBots.keys|
        invariant 0 <= i <= |processingBots.keys|
        invariant FirstMatch(processingBots.keys, processingBots.entries, bot.meId)
               == FirstMatch(processingBots.keys[i..], processingBots.entries, bot.meId)
      {
        var botId := processingBots.keys[i];
        if processingBots.entries[botId].meId == bot.meId {
          return Some(botId);
        }
        assert processingBots.keys[i..][1..] == processingBots.keys[i + 1..];
        i := i + 1;
      }
      return None;
    }

    /** `get_bot_stats`: the dict it returns. The loads are a copy: a Dafny
        map is a value, so the caller cannot reach the pool through it. */
    method GetBotStats() returns (stats: map<string, StatValue>)
      requires Valid()
      ensures stats.Keys == {"active", "main_bot", "total_processors", "processor_loads"}
      ensures stats["active"] == Flag(active)
      ensures stats["main_bot"] == Name(if mainBot.Some? then mainBot.value.username else "Main Bot")
      ensures stats["total_processors"] == Count(|processingBots.keys|)
      ensures stats["processor_loads"] == Loads(botLoads.entries)
    {
      var name := match mainBot case Some(b) => b.username case None => "Main Bot";
      stats := map[
        "active" := Flag(active),
        "main_bot" := Name(name),
        "total_processors" := Count(|processingBots.keys|),
        "processor_loads" := Loads(botLoads.entries)];
    }

    /** `stop_all_bots`: the processors are stopped (failures are only
        logged), both dicts cleared and the pool deactivated; the main bot is
        kept. The final state does not depend on the initial one, so a
        second call changes nothing. */
    method StopAllBots()
      requires Valid()
      modifies this
      ensures Valid() && !active && mainBot == old(mainBot)
      ensures processingBots.keys == [] && processingBots.entries == map[]
      ensures botLoads.keys == [] && botLoads.entries == map[]
    {
      processingBots := Empty();
      botLoads := Empty();
      active := false;
    }
  }
}
