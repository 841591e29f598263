/**
 * The player's side of the nanobot commands: creating a nanobot from cores,
 * removing one to reclaim its cores, repairing a broken one for gold, and
 * listing them all.  Every command checks its conditions in a fixed order and,
 * when one fails, reports it and changes nothing.
 */
module Roster {
  import opened Wrappers
  import opened Text
  import opened Catalog
  import opened Script
  import opened Nanobots

  /** How a command ended: `Ok`, or the first condition that stopped it. */
  datatype Outcome =
    | Ok
    | NoNormalCore        // fewer than one normal core
    | NoKindCore          // fewer than one core of the requested specialisation
    | Declined            // the confirmation prompt was answered with something other than yes
    | NameTooLong         // more than MaxNameLength characters
    | DuplicateName       // a nanobot of that name exists
    | MissingName         // no name argument was given
    | NotFound            // no nanobot of that name
    | BrokenBot           // a broken nanobot cannot be removed
    | AlreadyFunctional   // nothing to repair
    | NotEnoughGold       // less gold than the repair fee
    | NoBots              // the roster is empty

  const MaxNameLength := 15
  const StandardFee := 50
  const QuickFee := 20

  /** The gold a repair costs; quick mode is cheaper. */
  function RepairFee(quick: bool): (fee: int)
    ensures 0 < fee <= StandardFee
    ensures quick <==> fee < StandardFee
  {
    if quick then QuickFee else StandardFee
  }

  /** The cores of pool `t`, counting a missing pool as empty. */
  function Count(cores: map<Nanotype, int>, t: Nanotype): int {
    if t in cores then cores[t] else 0
  }

  /** Position of the first nanobot called `name`, if any. */
  function FindIndex(bots: seq<Nanobot>, name: string): (r: Option<nat>)
    ensures r.Some? ==> r.value < |bots| && bots[r.value].name == name
    ensures r.Some? ==> forall j :: 0 <= j < r.value ==> bots[j].name != name
    ensures r.None? <==> forall j :: 0 <= j < |bots| ==> bots[j].name != name
    decreases |bots|
  {
    if bots == [] then None
    else if bots[0].name == name then Some(0)
    else
      match FindIndex(bots[1..], name)
      case None => None
      case Some(i) => Some(i + 1)
  }

  /** The search through the roster for the first nanobot called `name`. */
  method Lookup(bots: seq<Nanobot>, name: string) returns (r: Option<nat>)
    ensures r == FindIndex(bots, name)
  {
    var i := 0;
    while i < |bots|
      invariant i <= |bots|
      invariant forall j :: 0 <= j < i ==> bots[j].name != name
    {
      if bots[i].name == name {
        return Some(i);
      }
      i := i + 1;
    }
    return None;
  }

  predicate UniqueNames(bots: seq<Nanobot>) {
    forall i, j :: 0 <= i < j < |bots| ==> bots[i].name != bots[j].name
  }

  /** The roster without its `i`-th nanobot. */
  function Without(bots: seq<Nanobot>, i: nat): (r: seq<Nanobot>)
    requires i < |bots|
    ensures |r| == |bots| - 1
    ensures forall k :: 0 <= k < |r| ==> r[k] == if k < i then bots[k] else bots[k + 1]
  {
    bots[..i] + bots[i + 1..]
  }

  /** The pools after building a nanobot of type `t`: one normal core, and one of `t` unless `t` is normal. */
  function Debit(cores: map<Nanotype, int>, t: Nanotype): (r: map<Nanotype, int>)
    requires Normal in cores && t in cores
    ensures r.Keys == cores.Keys
    ensures r[Normal] == cores[Normal] - 1
    ensures t != Normal ==> r[t] == cores[t] - 1
    ensures forall u :: u in cores && u != Normal && u != t ==> r[u] == cores[u]
  {
    var c := cores[Normal := cores[Normal] - 1];
    if t != Normal then c[t := c[t] - 1] else c
  }

  /** The pools after taking a nanobot of type `t` apart. */
  function Credit(cores: map<Nanotype, int>, t: Nanotype): (r: map<Nanotype, int>)
    requires Normal in cores && t in cores
    ensures r.Keys == cores.Keys
    ensures r[Normal] == cores[Normal] + 1
    ensures t != Normal ==> r[t] == cores[t] + 1
    ensures forall u :: u in cores && u != Normal && u != t ==> r[u] == cores[u]
  {
    var c := cores[Normal := cores[Normal] + 1];
    if t != Normal then c[t := c[t] + 1] else c
  }

  /** Every pool is present and none is negative. */
  ghost predicate PoolsValid(cores: map<Nanotype, int>) {
    forall t: Nanotype :: t in cores && cores[t] >= 0
  }

  /** Taking a nanobot apart gives back exactly the cores building it took. */
  lemma CreditUndoesDebit(cores: map<Nanotype, int>, t: Nanotype)
    requires Normal in cores && t in cores
    ensures Credit(Debit(cores, t), t) == cores
  {
    var r := Credit(Debit(cores, t), t);
    assert r.Keys == cores.Keys;
    forall u | u in cores ensures r[u] == cores[u] {
    }
  }

  /** Building a nanobot whose cores are there leaves no pool negative. */
  lemma DebitKeepsPoolsValid(cores: map<Nanotype, int>, t: Nanotype)
    requires PoolsValid(cores)
    requires cores[Normal] >= 1 && (t != Normal ==> cores[t] >= 1)
    ensures PoolsValid(Debit(cores, t))
    ensures forall u: Nanotype :: Debit(cores, t)[u] <= cores[u]
  {
  }

  /** Taking a nanobot apart leaves no pool negative and shrinks none. */
  lemma CreditKeepsPoolsValid(cores: map<Nanotype, int>, t: Nanotype)
    requires PoolsValid(cores)
    ensures PoolsValid(Credit(cores, t))
    ensures forall u: Nanotype :: Credit(cores, t)[u] >= cores[u]
  {
  }

  /** There is a normal core and, for a specialised nanobot, a core of its type. */
  predicate HasCores(cores: map<Nanotype, int>, kind: Nanotype) {
    Count(cores, Normal) >= 1 && (kind != Normal ==> Count(cores, kind) >= 1)
  }

  /** The first failing condition of a creation, in the order the command checks them. */
  function CreateVerdict(cores: map<Nanotype, int>, bots: seq<Nanobot>, kind: Nanotype,
                         name: string, confirmed: bool): (r: Outcome)
    ensures r == Ok <==>
              && HasCores(cores, kind)
              && confirmed
              && |name| <= MaxNameLength
              && forall j :: 0 <= j < |bots| ==> bots[j].name != name
    ensures r == NoNormalCore <==> Count(cores, Normal) < 1
    ensures r == NoKindCore <==> Count(cores, Normal) >= 1 && kind != Normal && Count(cores, kind) < 1
    ensures r == Declined <==> HasCores(cores, kind) && !confirmed
    ensures r == NameTooLong <==> HasCores(cores, kind) && confirmed && |name| > MaxNameLength
    ensures r == DuplicateName <==>
              && HasCores(cores, kind)
              && confirmed
              && |name| <= MaxNameLength
              && exists j :: 0 <= j < |bots| && bots[j].name == name
    ensures r in {Ok, NoNormalCore, NoKindCore, Declined, NameTooLong, DuplicateName}
  {
    if Count(cores, Normal) < 1 then NoNormalCore
    else if kind != Normal && Count(cores, kind) < 1 then NoKindCore
    else if !confirmed then Declined
    else if |name| > MaxNameLength then NameTooLong
    else if FindIndex(bots, name).Some? then DuplicateName
    else Ok
  }

  /** The first failing condition of a removal. */
  function RemoveVerdict(bots: seq<Nanobot>, name: Option<string>): (r: Outcome)
    reads bots
    ensures r == Ok <==>
              name.Some? && FindIndex(bots, name.value).Some?
              && bots[FindIndex(bots, name.value).value].functional
    ensures r == MissingName <==> name.None?
    ensures r == NotFound <==> name.Some? && forall j :: 0 <= j < |bots| ==> bots[j].name != name.value
    ensures r == BrokenBot <==>
              name.Some? && FindIndex(bots, name.value).Some?
              && !bots[FindIndex(bots, name.value).value].functional
    ensures r in {Ok, MissingName, NotFound, BrokenBot}
  {
    if name.None? then MissingName
    else
      match FindIndex(bots, name.value)
      case None => NotFound
      case Some(i) => if !bots[i].functional then BrokenBot else Ok
  }

  /** The first failing condition of a repair. */
  function FsckVerdict(bots: seq<Nanobot>, gold: int, name: Option<string>, quick: bool,
                       confirmed: bool): (r: Outcome)
    reads bots
    ensures r == Ok <==>
              name.Some? && FindIndex(bots, name.value).Some?
              && !bots[FindIndex(bots, name.value).value].functional
              && gold >= RepairFee(quick) && confirmed
    ensures r == MissingName <==> name.None?
    ensures r == NotFound <==> name.Some? && forall j :: 0 <= j < |bots| ==> bots[j].name != name.value
    ensures r == AlreadyFunctional <==>
              name.Some? && FindIndex(bots, name.value).Some?
              && bots[FindIndex(bots, name.value).value].functional
    ensures r == NotEnoughGold <==>
              name.Some? && FindIndex(bots, name.value).Some?
              && !bots[FindIndex(bots, name.value).value].functional
              && gold < RepairFee(quick)
    ensures r == Declined <==>
              name.Some? && FindIndex(bots, name.value).Some?
              && !bots[FindIndex(bots, name.value).value].functional
              && gold >= RepairFee(quick) && !confirmed
    ensures r in {Ok, MissingName, NotFound, AlreadyFunctional, NotEnoughGold, Declined}
  {
    if name.None? then MissingName
    else
      match FindIndex(bots, name.value)
      case None => NotFound
      case Some(i) =>
        if bots[i].functional then AlreadyFunctional
        else if gold < RepairFee(quick) then NotEnoughGold
        else if !confirmed then Declined
        else Ok
  }

  /** A new name appended to a roster is found at the end. */
  lemma {:induction false} FindAppended(bots: seq<Nanobot>, bot: Nanobot)
    requires forall j :: 0 <= j < |bots| ==> bots[j].name != bot.name
    ensures FindIndex(bots + [bot], bot.name) == Some(|bots|)
    decreases |bots|
  {
    if bots != [] {
      assert (bots + [bot])[1..] == bots[1..] + [bot];
      FindAppended(bots[1..], bot);
    }
  }

  /**
   * Creating a nanobot and then removing it by name gives back the roster and
   * the pools as they were.
   */
  lemma CreateThenRemoveRestores(bots: seq<Nanobot>, bot: Nanobot, cores: map<Nanotype, int>)
    requires forall j :: 0 <= j < |bots| ==> bots[j].name != bot.name
    requires Normal in cores && bot.kind in cores
    ensures FindIndex(bots + [bot], bot.name) == Some(|bots|)
    ensures Without(bots + [bot], |bots|) == bots
    ensures Credit(Debit(cores, bot.kind), bot.kind) == cores
  {
    FindAppended(bots, bot);
    CreditUndoesDebit(cores, bot.kind);
  }

  /** Removing a nanobot keeps the other names distinct. */
  lemma UniqueWithout(bots: seq<Nanobot>, i: nat)
    requires i < |bots| && UniqueNames(bots)
    ensures UniqueNames(Without(bots, i))
  {
    var r := Without(bots, i);
    forall a, b | 0 <= a < b < |r| ensures r[a].name != r[b].name {
      var a' := if a < i then a else a + 1;
      var b' := if b < i then b else b + 1;
      assert r[a] == bots[a'] && r[b] == bots[b'];
    }
  }

  /** Appending a nanobot whose name is new keeps the names distinct. */
  lemma UniqueAppend(bots: seq<Nanobot>, bot: Nanobot)
    requires UniqueNames(bots)
    requires forall j :: 0 <= j < |bots| ==> bots[j].name != bot.name
    ensures UniqueNames(bots + [bot])
  {
  }

  /** Every nanobot of the roster is as it was built. */
  ghost predicate AllBuilt(bots: seq<Nanobot>)
    reads bots
  {
    forall i {:trigger bots[i].Valid()} :: 0 <= i < |bots| ==> bots[i].Valid()
  }

  lemma AllBuiltWithout(bots: seq<Nanobot>, i: nat)
    requires i < |bots| && AllBuilt(bots)
    ensures AllBuilt(Without(bots, i))
  {
    var r := Without(bots, i);
    forall k | 0 <= k < |r| ensures r[k].Valid() {
      var k' := if k < i then k else k + 1;
      assert r[k] == bots[k'] && bots[k'].Valid();
    }
  }

  lemma AllBuiltAppend(bots: seq<Nanobot>, bot: Nanobot)
    requires AllBuilt(bots) && bot.Valid()
    ensures AllBuilt(bots + [bot])
  {
    var r := bots + [bot];
    forall k | 0 <= k < |r| ensures r[k].Valid() {
      if k < |bots| {
        assert r[k] == bots[k] && bots[k].Valid();
      }
    }
  }

  /** One line of the listing; the event column is `None` when no event is bound. */
  datatype Row = Row(name: string, kind: Nanotype, idle: string,
                     events: Option<map<string, string>>, current: string)

  /** The listing line of `bot`. */
  function ListRow(bot: Nanobot): (r: Row)
    reads bot
    ensures r.name == bot.name && r.kind == bot.kind
    ensures r.idle == "None" <==> bot.idleAction.None? || bot.idleAction.value in {"", "None"}
    ensures bot.idleAction.Some? && bot.idleAction.value != "" ==> r.idle == bot.idleAction.value
    ensures r.events.None? <==> bot.eventActions == map[]
    ensures bot.eventActions != map[] ==> r.events == Some(bot.eventActions)
    ensures r.current == bot.CurrentAction(None)
  {
    var idle := if bot.idleAction.Some? && bot.idleAction.value != "" then bot.idleAction.value else "None";
    var events := if bot.eventActions != map[] then Some(bot.eventActions) else None;
    var current := bot.CurrentAction(None);
    Row(bot.name, bot.kind, idle, events, if current != "" then current else "None")
  }

  class Player {
    var nanobots: seq<Nanobot>
    var cores: map<Nanotype, int>
    var gold: int

    /**
     * Every pool is present and non-negative, gold is non-negative, the
     * nanobots have distinct names and each is as it was built.
     */
    ghost predicate Valid()
      reads this, nanobots
    {
      && PoolsValid(cores)
      && gold >= 0
      && UniqueNames(nanobots)
      && AllBuilt(nanobots)
    }
  }

  /** The checks a creation makes before it changes anything, in the order it makes them. */
  method CheckCreate(p: Player, kind: Nanotype, name: string, confirmed: bool) returns (outcome: Outcome)
    ensures outcome == CreateVerdict(p.cores, p.nanobots, kind, name, confirmed)
  {
    if Count(p.cores, Normal) < 1 {
      return NoNormalCore;
    }
    if kind != Normal && Count(p.cores, kind) < 1 {
      return NoKindCore;
    }
    if !confirmed {
      return Declined;
    }
    if |name| > MaxNameLength {
      return NameTooLong;
    }
    var existing := Lookup(p.nanobots, name);
    if existing.Some? {
      return DuplicateName;
    }
    return Ok;
  }

  /**
   * Create a nanobot of type `kind` called `name` whose script is the lines
   * `entered`.  `confirmed` is the answer to the confirmation prompt (or the
   * auto-accept flag) and `name` the name given or typed in.
   */
  method HandleNano(p: Player, kind: Nanotype, name: string, confirmed: bool, entered: seq<string>)
    returns (outcome: Outcome)
    requires p.Valid()
    modifies p
    ensures p.Valid()
    ensures outcome == CreateVerdict(old(p.cores), old(p.nanobots), kind, name, confirmed)
    ensures p.gold == old(p.gold)
    ensures outcome != Ok ==> p.nanobots == old(p.nanobots) && p.cores == old(p.cores)
    ensures outcome == Ok ==>
              && |p.nanobots| == |old(p.nanobots)| + 1
              && p.nanobots[..|old(p.nanobots)|] == old(p.nanobots)
              && fresh(p.nanobots[|old(p.nanobots)|])
              && p.nanobots[|old(p.nanobots)|].name == name
              && p.nanobots[|old(p.nanobots)|].kind == kind
              && p.nanobots[|old(p.nanobots)|].logic == Strip(JoinLines(entered))
              && p.nanobots[|old(p.nanobots)|].functional
              && p.cores == Debit(old(p.cores), kind)
  {
    outcome := CheckCreate(p, kind, name, confirmed);
    if outcome != Ok {
      return;
    }
    var logic := Strip(JoinLines(entered));
    var bot := new Nanobot(name, logic, kind);
    Enlist(p, bot);
  }

  /** Add a new nanobot to the roster and take the cores it is built from. */
  method Enlist(p: Player, bot: Nanobot)
    requires p.Valid() && bot.Valid() && bot !in p.nanobots
    requires forall j :: 0 <= j < |p.nanobots| ==> p.nanobots[j].name != bot.name
    requires p.cores[Normal] >= 1 && (bot.kind != Normal ==> p.cores[bot.kind] >= 1)
    modifies p
    ensures p.Valid()
    ensures p.nanobots == old(p.nanobots) + [bot]
    ensures p.cores == Debit(old(p.cores), bot.kind) && p.gold == old(p.gold)
  {
    UniqueAppend(p.nanobots, bot);
    AllBuiltAppend(p.nanobots, bot);
    DebitKeepsPoolsValid(p.cores, bot.kind);
    p.nanobots := p.nanobots + [bot];
    p.cores := p.cores[Normal := p.cores[Normal] - 1];
    if bot.kind != Normal {
      p.cores := p.cores[bot.kind := p.cores[bot.kind] - 1];
    }
  }

  /** The checks a removal makes before it changes anything; `i` is where the nanobot is. */
  method CheckRemove(p: Player, name: Option<string>) returns (outcome: Outcome, i: nat)
    ensures outcome == RemoveVerdict(p.nanobots, name)
    ensures outcome == Ok ==> name.Some? && FindIndex(p.nanobots, name.value) == Some(i)
  {
    if name.None? {
      return MissingName, 0;
    }
    var found := Lookup(p.nanobots, name.value);
    if found.None? {
      return NotFound, 0;
    }
    i := found.value;
    if !p.nanobots[i].functional {
      return BrokenBot, i;
    }
    return Ok, i;
  }

  /** Remove the nanobot called `name` and credit its cores back. */
  method HandleRemove(p: Player, name: Option<string>) returns (outcome: Outcome)
    requires p.Valid()
    modifies p
    ensures p.Valid()
    ensures outcome == old(RemoveVerdict(p.nanobots, name))
    ensures p.gold == old(p.gold)
    ensures outcome != Ok ==> p.nanobots == old(p.nanobots) && p.cores == old(p.cores)
    ensures outcome == Ok ==>
              var i := FindIndex(old(p.nanobots), name.value).value;
              && p.nanobots == Without(old(p.nanobots), i)
              && p.cores == Credit(old(p.cores), old(p.nanobots)[i].kind)
  {
    var i;
    outcome, i := CheckRemove(p, name);
    if outcome != Ok {
      return;
    }
    Dismiss(p, i);
  }

  /** Take the `i`-th nanobot off the roster and credit back the cores it was built from. */
  method Dismiss(p: Player, i: nat)
    requires p.Valid() && i < |p.nanobots|
    modifies p
    ensures p.Valid()
    ensures p.nanobots == Without(old(p.nanobots), i)
    ensures p.cores == Credit(old(p.cores), old(p.nanobots)[i].kind) && p.gold == old(p.gold)
  {
    var bot := p.nanobots[i];
    CreditKeepsPoolsValid(p.cores, bot.kind);
    UniqueWithout(p.nanobots, i);
    AllBuiltWithout(p.nanobots, i);
    p.cores := p.cores[Normal := p.cores[Normal] + 1];
    if bot.kind != Normal {
      p.cores := p.cores[bot.kind := p.cores[bot.kind] + 1];
    }
    p.nanobots := p.nanobots[..i] + p.nanobots[i + 1..];
  }

  /** The checks a repair makes before it changes anything; `i` is where the nanobot is. */
  method CheckFsck(p: Player, name: Option<string>, quick: bool, confirmed: bool)
    returns (outcome: Outcome, i: nat)
    ensures outcome == FsckVerdict(p.nanobots, p.gold, name, quick, confirmed)
    ensures outcome == Ok ==> name.Some? && FindIndex(p.nanobots, name.value) == Some(i)
  {
    if name.None? {
      return MissingName, 0;
    }
    var found := Lookup(p.nanobots, name.value);
    if found.None? {
      return NotFound, 0;
    }
    i := found.value;
    if p.nanobots[i].functional {
      return AlreadyFunctional, i;
    }
    if p.gold < RepairFee(quick) {
      return NotEnoughGold, i;
    }
    if !confirmed {
      return Declined, i;
    }
    return Ok, i;
  }

  /**
   * Repair the broken nanobot called `name` for the repair fee.  `confirmed`
   * is the answer to the confirmation prompt (or the auto-fix flag).
   */
  method HandleFsck(p: Player, name: Option<string>, quick: bool, confirmed: bool)
    returns (outcome: Outcome)
    requires p.Valid()
    modifies p`gold, p.nanobots
    ensures p.Valid()
    ensures outcome == old(FsckVerdict(p.nanobots, p.gold, name, quick, confirmed))
    ensures p.nanobots == old(p.nanobots) && p.cores == old(p.cores)
    ensures forall j :: 0 <= j < |p.nanobots| ==> p.nanobots[j].Attributes() == old(p.nanobots[j].Attributes())
    ensures outcome != Ok ==> p.gold == old(p.gold)
    ensures outcome != Ok ==> forall j :: 0 <= j < |p.nanobots| ==> p.nanobots[j].functional == old(p.nanobots[j].functional)
    ensures outcome == Ok ==>
              var i := FindIndex(p.nanobots, name.value).value;
              && p.gold == old(p.gold) - RepairFee(quick)
              && forall j :: 0 <= j < |p.nanobots| ==>
                   p.nanobots[j].functional == (j == i || old(p.nanobots[j].functional))
  {
    var i;
    outcome, i := CheckFsck(p, name, quick, confirmed);
    if outcome != Ok {
      return;
    }
    Mend(p, p.nanobots[i], RepairFee(quick));
  }

  /** Charge `fee` gold and make nanobot `bot` functional again. */
  method Mend(p: Player, bot: Nanobot, fee: int)
    requires p.Valid() && bot in p.nanobots && 0 <= fee <= p.gold
    modifies p`gold, bot`functional
    ensures p.Valid()
    ensures p.gold == old(p.gold) - fee && bot.functional
  {
    p.gold := p.gold - fee;
    bot.functional := true;
  }

  /** The listing: one row per nanobot, in roster order, or `NoBots` for an empty roster. */
  method HandleList(p: Player) returns (outcome: Outcome, rows: seq<Row>)
    ensures outcome == (if p.nanobots == [] then NoBots else Ok)
    ensures |rows| == |p.nanobots|
    ensures forall i :: 0 <= i < |rows| ==> rows[i] == ListRow(p.nanobots[i])
  {
    if p.nanobots == [] {
      return NoBots, [];
    }
    rows := [];
    for i := 0 to |p.nanobots|
      invariant |rows| == i
      invariant forall k :: 0 <= k < i ==> rows[k] == ListRow(p.nanobots[k])
    {
      rows := rows + [ListRow(p.nanobots[i])];
    }
    return Ok, rows;
  }

  /**
   * Create a nanobot and remove it again by name: when the creation succeeds,
   * so does the removal, and the roster and pools are as they were.
   */
  method CreateThenRemove(p: Player, kind: Nanotype, name: string, entered: seq<string>)
    returns (created: Outcome, removed: Outcome)
    requires p.Valid()
    modifies p
    ensures p.Valid()
    ensures created == Ok ==> removed == Ok && p.nanobots == old(p.nanobots) && p.cores == old(p.cores)
  {
    ghost var bots, cores := p.nanobots, p.cores;
    created := HandleNano(p, kind, name, true, entered);
    if created != Ok {
      return created, created;
    }
    var bot := p.nanobots[|bots|];
    assert p.nanobots == bots + [bot];
    CreateThenRemoveRestores(bots, bot, cores);
    removed := HandleRemove(p, Some(name));
  }
}
