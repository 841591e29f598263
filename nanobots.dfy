/**
 * A nanobot: its name, type and script, which never change once it is built;
 * its stats and complexity, set when it is built; the behaviour read from its
 * script; and whether it is functional.
 */
module Nanobots {
  import opened Wrappers
  import opened Text
  import opened Catalog
  import opened Script

  class Nanobot {
    const name: string
    const kind: Nanotype
    /** The script, stripped of surrounding white space. */
    const logic: string
    /** Cleared by game code outside this model; set again only by a repair. */
    var functional: bool
    var miningRate: real
    var defenseRating: real
    var warpChance: real
    var learnRate: real
    var scanSuccessRate: real
    var connectionRate: real
    var complexity: real
    var idleAction: Option<string>
    var eventActions: map<string, string>

    function Profile(): Stats
      reads this`miningRate, this`defenseRating, this`warpChance,
            this`learnRate, this`scanSuccessRate, this`connectionRate
    {
      Stats(miningRate, defenseRating, warpChance, learnRate, scanSuccessRate, connectionRate)
    }

    /** The behaviour as it stands in the idle and event fields. */
    function Parsed(): Behaviour
      reads this`idleAction, this`eventActions
    {
      Behaviour(idleAction, eventActions)
    }

    /** Everything the nanobot was built with, apart from whether it is functional. */
    function Attributes(): (Stats, real, Behaviour)
      reads this`miningRate, this`defenseRating, this`warpChance,
            this`learnRate, this`scanSuccessRate, this`connectionRate,
            this`complexity, this`idleAction, this`eventActions
    {
      (Profile(), complexity, Parsed())
    }

    /**
     * The stats are those of the type, the complexity is that of the script, and
     * the behaviour is the one the script declares.  Being functional or not
     * has no part in it, so a repair keeps it.
     */
    ghost predicate Valid()
      reads this`miningRate, this`defenseRating, this`warpChance,
            this`learnRate, this`scanSuccessRate, this`connectionRate,
            this`complexity, this`idleAction, this`eventActions
    {
      && Profile() == StatsOf(kind)
      && complexity == Complexity(logic, kind)
      && Parsed() == ParseScript(logic)
    }

    /** A new functional nanobot with the baseline stats, its type's boosts and its script read. */
    constructor (name: string, logic: string, kind: Nanotype)
      ensures this.name == name && this.kind == kind && this.logic == Strip(logic)
      ensures functional
      ensures Valid()
    {
      this.name := name;
      idleAction := None;
      eventActions := map[];
      this.kind := kind;
      this.logic := Strip(logic);
      complexity := 0.0;
      new;
      Initialise();
      functional := true;
    }

    /** The rest of construction: the script read, the complexity computed and the stats set. */
    method Initialise()
      requires Parsed() == NoBehaviour
      modifies this`idleAction, this`eventActions, this`complexity,
               this`miningRate, this`defenseRating, this`warpChance,
               this`learnRate, this`scanSuccessRate, this`connectionRate
      ensures Valid()
    {
      ParseLogic();
      UpdateComplexity();
      SetStats();
    }

    /** The baseline stats, then the boosts of the nanobot's type. */
    method SetStats()
      modifies this`miningRate, this`defenseRating, this`warpChance,
               this`learnRate, this`scanSuccessRate, this`connectionRate
      ensures Profile() == StatsOf(kind)
    {
      miningRate := 1.0;
      defenseRating := 1.0;
      warpChance := 0.0;
      learnRate := 0.2;
      scanSuccessRate := 0.01;
      connectionRate := 0.1;
      if kind == Miner {
        miningRate := 1.3;
      } else if kind == Fighter {
        defenseRating := 1.3;
      } else if kind == Super {
        miningRate := 1.3;
        defenseRating := 1.3;
      } else if kind == Warper {
        warpChance := 0.1;
      } else if kind == Researcher {
        learnRate := 0.5;
      } else if kind == Hacker {
        scanSuccessRate := 0.2;
      } else if kind == Diplomat {
        connectionRate := 0.3;
      }
    }

    /** Recompute the complexity from the script and the type. */
    method UpdateComplexity()
      modifies this`complexity
      ensures complexity == Complexity(logic, kind)
    {
      complexity := (|logic| as real / 10.0) * (if kind != Normal then 2.0 else 1.0);
    }

    /**
     * Read the script line by line, each declaration overriding what an earlier
     * one set; on a nanobot with no behaviour yet, the result is the behaviour
     * the script declares.
     */
    method ParseLogic()
      modifies this`idleAction, this`eventActions
      ensures old(Parsed()) == NoBehaviour ==> Parsed() == ParseScript(logic)
    {
      var lines := SplitLines(logic);
      ghost var start := Parsed();
      for i := 0 to |lines|
        invariant Parsed() == ParseDecls(start, Declarations(lines[..i]))
      {
        ReadLine(lines[i]);
        MapSeqSnoc(Classify, lines, i);
        ParseDeclsSnoc(start, Declarations(lines[..i]), Classify(lines[i]));
      }
      assert lines[..|lines|] == lines;
    }

    /** The body of the loop in `ParseLogic`: one line of the script, trimmed and read. */
    method ReadLine(line: string)
      modifies this`idleAction, this`eventActions
      ensures Parsed() == Apply(old(Parsed()), Classify(line))
    {
      var line := Strip(line);
      if StartsWith(line, "idle ") {
        idleAction := Some(Strip(line[5..]));
      } else if StartsWith(line, "on ") {
        var parts := SplitWs(line[3..]);
        if |parts| >= 2 {
          eventActions := eventActions[parts[0] := parts[1]];
        }
      }
    }

    /**
     * What the nanobot is doing, given an optional event: broken first, then a
     * bound event, then the idle action, and otherwise idle.  An empty event
     * name or idle action counts as absent.
     */
    function CurrentAction(event: Option<string>): (r: string)
      reads this`functional, this`idleAction, this`eventActions
      ensures r == "BROKEN" <==> !functional
      ensures functional && event.Some? && event.value != "" && event.value in eventActions ==>
                r == "Performing '" + eventActions[event.value] + "' due to event '" + event.value + "'"
      ensures functional && !(event.Some? && event.value != "" && event.value in eventActions)
                && idleAction.Some? && idleAction.value != "" ==>
                r == "Performing idle action: " + idleAction.value
      ensures r == "IDLE" <==>
                functional && !(event.Some? && event.value != "" && event.value in eventActions)
                && !(idleAction.Some? && idleAction.value != "")
      ensures r != ""
    {
      if !functional then "BROKEN"
      else if event.Some? && event.value != "" && event.value in eventActions then
        var r := "Performing '" + eventActions[event.value] + "' due to event '" + event.value + "'";
        assert r[0] == 'P' && r[0] != "BROKEN"[0] && r[0] != "IDLE"[0];
        r
      else if idleAction.Some? && idleAction.value != "" then
        var r := "Performing idle action: " + idleAction.value;
        assert r[0] == 'P' && r[0] != "BROKEN"[0] && r[0] != "IDLE"[0];
        r
      else "IDLE"
    }
  }
}
