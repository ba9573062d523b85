/** The command loop of `carmen_sandiego` (carmen.py:212-247), one command at
    a time: how a typed line is classified and what each command does to the
    game. Reading the line and printing replies are left to the caller; the
    reply says which message the loop prints. */
module Dispatch {
  import opened Text
  import opened Options
  import opened CarmenData
  import opened Routes
  import opened Actions

  /** A typed line, classified. Arguments are what the loop passes on. */
  datatype Command =
    | ShowLocations
    | ShowClues
    | ShowPeople
    | Go(destination: string)
    | Talk(person: string)
    | Investigate(clue: string)
    | CatchCarmen
    | Quit
    | Unrecognized

  predicate NoUpper(s: string) {
    forall i :: 0 <= i < |s| ==> !IsUpper(s[i])
  }

  lemma StripKeepsChars(s: string)
    ensures forall i :: 0 <= i < |Strip(s)| ==> Strip(s)[i] in s
  {
    var r := Strip(s);
    var a :| StrippedAt(s, r, a);
    forall i | 0 <= i < |r| ensures r[i] in s {
      assert r[i] == s[a + i];
    }
  }

  /** What follows a prefix of a capital-free line is stripped free of
      capitals. */
  lemma ArgumentNoUpper(command: string, n: nat)
    ensures NoUpper(command) ==> NoUpper(Strip(Drop(command, n)))
  {
    var rest := Drop(command, n);
    if NoUpper(command) {
      assert NoUpper(rest) by {
        if n <= |command| {
          forall i | 0 <= i < |rest| ensures !IsUpper(rest[i]) {
            assert rest[i] == command[n + i];
          }
        }
      }
      StripKeepsChars(rest);
    }
  }

  /** Capitalising leaves no capital after the first character. */
  lemma CapitalizeTail(s: string)
    ensures |s| > 0 ==> NoUpper(Capitalize(s)[1..])
  {
    var c := Capitalize(s);
    if |s| > 0 {
      forall i | 0 <= i < |c| - 1 ensures !IsUpper(c[1..][i]) {
        assert c[1..][i] == LowerChar(s[i + 1]);
      }
    }
  }

  /** The dispatch on a line already lower-cased. A capital-free line gives
      capital-free arguments; the destination is capitalised. */
  function ParseCommand(command: string): (c: Command)
    ensures NoUpper(command) && c.Talk? ==> NoUpper(c.person)
    ensures NoUpper(command) && c.Investigate? ==> NoUpper(c.clue)
    ensures c.Go? && |c.destination| > 0 ==> NoUpper(c.destination[1..])
  {
    if command == "display locations" then ShowLocations
    else if command == "display clues" then ShowClues
    else if command == "display people" then ShowPeople
    else if StartsWith(command, "go to ") || StartsWith(command, "travel to ") then
      CapitalizeTail(Drop(command, 6));
      Go(Capitalize(Drop(command, 6)))
    else if StartsWith(command, "talk to ") then
      ArgumentNoUpper(command, 8);
      Talk(Strip(Drop(command, 8)))
    else if StartsWith(command, "investigate ") then
      ArgumentNoUpper(command, 12);
      Investigate(Strip(Drop(command, 12)))
    else if command == "catch carmen" then CatchCarmen
    else if command == "quit" || command == "exit" then Quit
    else Unrecognized
  }

  lemma LowerNoUpper(s: string)
    ensures NoUpper(Lower(s))
  {
  }

  /** The loop's dispatch on the typed line: it is lower-cased first, so every
      argument is free of capitals except the destination, which is
      capitalised. */
  function Classify(raw: string): (c: Command)
    ensures c.Talk? ==> NoUpper(c.person)
    ensures c.Investigate? ==> NoUpper(c.clue)
    ensures c.Go? && |c.destination| > 0 ==> NoUpper(c.destination[1..])
  {
    LowerNoUpper(raw);
    ParseCommand(Lower(raw))
  }

  lemma LowerAppend(prefix: string, name: string)
    requires NoUpper(prefix)
    ensures Lower(prefix + name) == prefix + Lower(name)
  {
  }

  /** Capitalisation ignores the case the name was typed in. */
  lemma CapitalizeLower(s: string)
    ensures Capitalize(Lower(s)) == Capitalize(s)
  {
  }

  /** A typed line made of a capital-free prefix and a name is dispatched
      as the prefix followed by the lowered name. */
  lemma ClassifyPrefixed(prefix: string, name: string)
    requires NoUpper(prefix)
    ensures Classify(prefix + name) == ParseCommand(prefix + Lower(name))
  {
    var raw := prefix + name;
    LowerAppend(prefix, name);
    calc {
      Classify(raw);
      ParseCommand(Lower(raw));
      { assert Lower(raw) == prefix + Lower(name); }
      ParseCommand(prefix + Lower(name));
    }
  }

  /** A line made of a prefix and a rest starts with the prefix, and dropping
      the prefix leaves the rest. */
  lemma PrefixSplit(p: string, x: string)
    ensures StartsWith(p + x, p) && Drop(p + x, |p|) == x
  {
    assert (p + x)[..|p|] == p;
    assert (p + x)[|p|..] == x;
  }

  /** On a lowered line, `go to` is a move to the rest, capitalised. */
  lemma ParseGoTo(rest: string)
    ensures ParseCommand("go to " + rest) == Go(Capitalize(rest))
  {
    var command := "go to " + rest;
    PrefixSplit("go to ", rest);
    assert command[0] == 'g';
    assert command != "display locations" && command != "display clues" && command != "display people";
  }

  /** `go to <name>` asks for the typed name, capitalised. */
  lemma GoToTakesRest(name: string)
    ensures Classify("go to " + name) == Go(Capitalize(name))
  {
    calc {
      Classify("go to " + name);
      { ClassifyPrefixed("go to ", name); }
      ParseCommand("go to " + Lower(name));
      { ParseGoTo(Lower(name)); }
      Go(Capitalize(Lower(name)));
      { CapitalizeLower(name); }
      Go(Capitalize(name));
    }
  }

  /** Dropping the first six characters of `travel to <rest>` leaves
      ` to <rest>`. */
  lemma TravelTail(rest: string)
    ensures Drop("travel to " + rest, 6) == " to " + rest
  {
    var command := "travel to " + rest;
    var tail := " to " + rest;
    forall i | 0 <= i < |tail| ensures command[6 + i] == tail[i] {
      if i >= 4 {
        assert command[6 + i] == rest[i - 4];
      }
    }
    assert command[6..] == tail;
  }

  /** On a lowered line, `travel to` is a move to everything after the
      sixth character, capitalised. */
  lemma ParseTravel(rest: string)
    ensures ParseCommand("travel to " + rest) == Go(Capitalize(" to " + rest))
  {
    var command := "travel to " + rest;
    PrefixSplit("travel to ", rest);
    TravelTail(rest);
    assert command[0] == 't';
    assert command != "display locations" && command != "display clues" && command != "display people";
  }

  /** `travel to` is taken as a move, to the rest of the line after its
      first six characters, capitalised. */
  lemma ClassifyTravel(name: string)
    ensures Classify("travel to " + name) == Go(Capitalize(" to " + Lower(name)))
  {
    ClassifyPrefixed("travel to ", name);
    ParseTravel(Lower(name));
  }

  /** A capital-free text after a space is left as it is by capitalising. */
  lemma CapitalizeAfterSpace(t: string)
    requires NoUpper(t)
    ensures Capitalize(" " + t) == " " + t
  {
    var s := " " + t;
    var c := Capitalize(s);
    forall i | 0 <= i < |c| ensures c[i] == s[i] {
      if i > 0 {
        assert s[i] == t[i - 1];
      }
    }
  }

  lemma NoUpperAppend(a: string, b: string)
    requires NoUpper(a) && NoUpper(b)
    ensures NoUpper(a + b)
  {
    forall i | 0 <= i < |a + b| ensures !IsUpper((a + b)[i]) {
      if i >= |a| {
        assert (a + b)[i] == b[i - |a|];
      }
    }
  }

  /** `travel to <name>` drops only six characters, so the destination is
      ` to <name>`, starting with a space, and never the name the player
      typed. */
  lemma TravelToMangles(name: string)
    ensures Classify("travel to " + name) == Go(" to " + Lower(name))
    ensures Classify("travel to " + name).destination != Capitalize(name)
  {
    ClassifyTravel(name);
    var t := "to " + Lower(name);
    LowerNoUpper(name);
    NoUpperAppend("to ", Lower(name));
    CapitalizeAfterSpace(t);
    assert " " + t == " to " + Lower(name);
    assert |" to " + Lower(name)| != |Capitalize(name)|;
  }

  /** On a lowered line, `talk to` names the stripped rest. */
  lemma ParseTalk(rest: string)
    ensures ParseCommand("talk to " + rest) == Talk(Strip(rest))
  {
    var command := "talk to " + rest;
    PrefixSplit("talk to ", rest);
    assert command[0] == 't' && command[1] == 'a';
    assert command != "display locations" && command != "display clues" && command != "display people";
    assert !StartsWith(command, "go to ") && !StartsWith(command, "travel to ");
  }

  /** `talk to <name>` passes the rest of the line, lower-cased and stripped. */
  lemma TalkToTakesRest(name: string)
    ensures Classify("talk to " + name) == Talk(Strip(Lower(name)))
  {
    ClassifyPrefixed("talk to ", name);
    ParseTalk(Lower(name));
  }

  /** On a lowered line, `investigate` names the stripped rest. */
  lemma ParseInvestigate(rest: string)
    ensures ParseCommand("investigate " + rest) == Investigate(Strip(rest))
  {
    var command := "investigate " + rest;
    PrefixSplit("investigate ", rest);
    assert command[0] == 'i';
    assert command != "display locations" && command != "display clues" && command != "display people";
    assert !StartsWith(command, "go to ") && !StartsWith(command, "travel to ");
    assert !StartsWith(command, "talk to ");
  }

  /** `investigate <name>` passes the rest of the line, lower-cased and stripped. */
  lemma InvestigateTakesRest(name: string)
    ensures Classify("investigate " + name) == Investigate(Strip(Lower(name)))
  {
    ClassifyPrefixed("investigate ", name);
    ParseInvestigate(Lower(name));
  }

  lemma ClassifyCatch()
    ensures Classify("catch carmen") == CatchCarmen
  {
    var command := "catch carmen";
    LowerIdentity(command);
    assert command[0] == 'c';
    assert !StartsWith(command, "go to ") && !StartsWith(command, "travel to ");
    assert !StartsWith(command, "talk to ") && !StartsWith(command, "investigate ");
    assert Classify(command) == ParseCommand(command);
  }

  /** The fixed commands: each is recognised by exactly one lowered line,
      or two for quitting. */
  lemma ParseKeywords(command: string)
    ensures ParseCommand(command) == ShowLocations <==> command == "display locations"
    ensures ParseCommand(command) == ShowClues <==> command == "display clues"
    ensures ParseCommand(command) == ShowPeople <==> command == "display people"
    ensures ParseCommand(command) == CatchCarmen <==> command == "catch carmen"
    ensures ParseCommand(command) == Quit <==> command == "quit" || command == "exit"
  {
    if command == "catch carmen" {
      assert command[0] == 'c';
      assert !StartsWith(command, "go to ") && !StartsWith(command, "travel to ");
      assert !StartsWith(command, "talk to ") && !StartsWith(command, "investigate ");
    } else if command == "quit" || command == "exit" {
      assert !StartsWith(command, "go to ") && !StartsWith(command, "travel to ");
      assert !StartsWith(command, "talk to ") && !StartsWith(command, "investigate ");
    }
  }

  /** Which typed lines are the fixed commands: the line is compared after
      lower-casing, so `QUIT` quits as `quit` does. */
  lemma ClassifyKeywords(raw: string)
    ensures Classify(raw) == ShowLocations <==> Lower(raw) == "display locations"
    ensures Classify(raw) == ShowClues <==> Lower(raw) == "display clues"
    ensures Classify(raw) == ShowPeople <==> Lower(raw) == "display people"
    ensures Classify(raw) == CatchCarmen <==> Lower(raw) == "catch carmen"
    ensures Classify(raw) == Quit <==> Lower(raw) == "quit" || Lower(raw) == "exit"
  {
    ParseKeywords(Lower(raw));
  }

  /** The message the loop prints for a command. */
  datatype Reply =
    | Listed
    | Moved
    | CannotGo
    | Talked
    | NoOneHere
    | Investigated
    | NoClueHere
    | Caught
    | NotFound
    | NotFoundThirdTime
    | Exiting
    | NotRecognized
    | KeyErrorRaised

  /** The loop's state: the world, where the player is, and how many times
      catching Carmen has failed. */
  datatype Game = Game(world: World, current: string, misses: nat)

  /** One pass of the loop: the state afterwards, the message, and whether the
      loop goes on. */
  datatype Outcome = Outcome(game: Game, reply: Reply, running: bool)

  /** What every command may rely on: the route data is well formed, the
      player stands at a known location, and every hidden flag is present. */
  predicate Playable(g: Game) {
    WellFormed(g.world.locations) && g.current in g.world.locations && HiddenSet(g.world)
  }

  /** Whether every location carries a `starts-locked` flag, which
      `display_locations` reads without a default. */
  predicate FlagsListed(locs: map<string, Location>) {
    forall l :: l in locs ==> locs[l].startsLocked.Some?
  }

  /** One command. The game stays playable; the world only gains unlocks; the
      miss count only grows, and only a failed catch grows it. A move goes
      to the destination exactly when a route leads there; talking and
      investigating apply their actions; listing, quitting and an
      unrecognised line change nothing. The loop ends on `quit` and `exit`,
      and when listing the locations meets one without a `starts-locked`
      flag, which raises `KeyError`; catching Carmen and the third miss
      print a message and play goes on. */
  function Turn(g: Game, raw: string): (o: Outcome)
    requires Playable(g)
    ensures Playable(o.game)
    ensures !o.running <==>
      Classify(raw) == Quit || (Classify(raw) == ShowLocations && !FlagsListed(g.world.locations))
    ensures o.game.current != g.current ==> Reachable(g.world.locations, g.current, o.game.current)
    ensures OnlyUnlocks(g.world, o.game.world)
    ensures o.game.misses == g.misses || (Classify(raw) == CatchCarmen && o.game.misses == g.misses + 1)
    ensures o.reply == NotFoundThirdTime <==>
      Classify(raw) == CatchCarmen && !g.world.locations[g.current].carmen && g.misses == 2
    ensures var c := Classify(raw);
      c.ShowLocations? || c.ShowClues? || c.ShowPeople? || c.Quit? || c.Unrecognized? ==> o.game == g
    ensures var c := Classify(raw);
      c.Go? ==>
        && (o.reply == Moved <==> CanGo(g.current, c.destination, g.world.locations))
        && o.game == if o.reply == Moved then g.(current := c.destination) else g
    ensures var c := Classify(raw);
      c.Talk? ==>
        && o.game == g.(world := TalkToPerson(g.world, c.person, g.current))
        && (o.reply == Talked <==> TalkAllowed(g.world, c.person, g.current))
    ensures var c := Classify(raw);
      c.Investigate? ==>
        && o.game == g.(world := InvestigateLocation(g.world, c.clue, g.current))
        && (o.reply == Investigated <==> InvestigateAllowed(g.world, c.clue, g.current))
    ensures Classify(raw) == CatchCarmen ==>
      && o.game.world == g.world && o.game.current == g.current
      && (o.reply == Caught <==> g.world.locations[g.current].carmen)
      && o.game.misses == (if g.world.locations[g.current].carmen then g.misses else g.misses + 1)
  {
    var locs := g.world.locations;
    match Classify(raw)
    case ShowLocations =>
      if FlagsListed(locs) then Outcome(g, Listed, true) else Outcome(g, KeyErrorRaised, false)
    case ShowClues => Outcome(g, Listed, true)
    case ShowPeople => Outcome(g, Listed, true)
    case Go(d) =>
      if CanGo(g.current, d, locs) then
        ReachableEndsInLocs(locs, g.current, d);
        Outcome(g.(current := d), Moved, true)
      else Outcome(g, CannotGo, true)
    case Talk(n) =>
      var w := TalkToPerson(g.world, n, g.current);
      UnlocksOnlyOpen(g.world, w, g.current);
      MoreMovesKeepRoutes(locs, w.locations, g.current, g.current);
      Outcome(g.(world := w), if TalkAllowed(g.world, n, g.current) then Talked else NoOneHere, true)
    case Investigate(n) =>
      var w := InvestigateLocation(g.world, n, g.current);
      UnlocksOnlyOpen(g.world, w, g.current);
      MoreMovesKeepRoutes(locs, w.locations, g.current, g.current);
      Outcome(g.(world := w), if InvestigateAllowed(g.world, n, g.current) then Investigated else NoClueHere, true)
    case CatchCarmen =>
      if locs[g.current].carmen then Outcome(g, Caught, true)
      else
        var misses := g.misses + 1;
        Outcome(g.(misses := misses), if misses == 3 then NotFoundThirdTime else NotFound, true)
    case Quit => Outcome(g, Exiting, false)
    case Unrecognized => Outcome(g, NotRecognized, true)
  }

  /** When no location's name starts with ` to `, `travel to` never moves
      the player, whatever follows it. */
  lemma TravelNeverMoves(g: Game, name: string)
    requires Playable(g)
    requires forall l :: l in g.world.locations ==> !StartsWith(l, " to ")
    ensures Turn(g, "travel to " + name).game.current == g.current
  {
    TravelToMangles(name);
    var d := " to " + Lower(name);
    assert d[..4] == " to ";
    if CanGo(g.current, d, g.world.locations) && d != g.current {
      ReachableEndsInLocs(g.world.locations, g.current, d);
    }
  }

  /** Catching Carmen where she is reports the catch and leaves the game
      running, unchanged. */
  lemma CatchDoesNotEndGame(g: Game)
    requires Playable(g) && g.world.locations[g.current].carmen
    ensures Turn(g, "catch carmen") == Outcome(g, Caught, true)
  {
    ClassifyCatch();
  }
}
