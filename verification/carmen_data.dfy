/** The world of the Carmen Sandiego game (carmen.py): locations, people and
    clues as loaded from the game file, keyed by name, and `build_world`,
    which prepares them for play. A key the file may leave out is an
    `Option`; a list the code reads with `.get(key, [])` is a sequence,
    empty when absent. */
module CarmenData {
  import opened Options

  /** A location: its outgoing connections, the `starts-locked` flag the route
      search and the unlocks use, the `locked` flag `build_world` adds, and
      whether Carmen hides there. */
  datatype Location = Location(
    connections: seq<string>,
    startsLocked: Option<bool>,
    locked: Option<bool>,
    carmen: bool)

  /** A person: where they stand, what they say, whether they start hidden,
      whether they are hidden now, and what talking to them unlocks. */
  datatype Person = Person(
    location: string,
    conversation: string,
    startsHidden: Option<bool>,
    hidden: Option<bool>,
    unlockLocations: seq<string>,
    unlockPeople: seq<string>,
    unlockClues: seq<string>)

  /** A clue: its text, whether it is hidden, where it can be investigated
      (its own `unlock-locations`) and what investigating it unlocks. */
  datatype Clue = Clue(
    clueText: string,
    hidden: Option<bool>,
    unlockLocations: seq<string>,
    unlockPeople: seq<string>,
    unlockClues: seq<string>)

  datatype World = World(
    locations: map<string, Location>,
    people: map<string, Person>,
    clues: map<string, Clue>)

  /** Every person and every clue carries a `hidden` flag, as `build_world`
      leaves them; the game reads those flags without a default. */
  predicate HiddenSet(w: World) {
    && (forall p :: p in w.people ==> w.people[p].hidden.Some?)
    && (forall c :: c in w.clues ==> w.clues[c].hidden.Some?)
  }

  /** `build_world`: each location's `locked` becomes its `starts-locked`
      (False when absent), each person's `hidden` becomes their
      `starts-hidden` (False when absent), and every clue starts hidden.
      No key is added or removed and no other field changes. */
  function BuildWorld(w: World): (r: World)
    ensures r.locations.Keys == w.locations.Keys
    ensures r.people.Keys == w.people.Keys
    ensures r.clues.Keys == w.clues.Keys
    ensures forall l :: l in w.locations ==>
      r.locations[l] == w.locations[l].(locked := Some(w.locations[l].startsLocked.GetOr(false)))
    ensures forall p :: p in w.people ==>
      r.people[p] == w.people[p].(hidden := Some(w.people[p].startsHidden.GetOr(false)))
    ensures forall c :: c in w.clues ==> r.clues[c] == w.clues[c].(hidden := Some(true))
  {
    World(
      map l | l in w.locations :: w.locations[l].(locked := Some(w.locations[l].startsLocked.GetOr(false))),
      map p | p in w.people :: w.people[p].(hidden := Some(w.people[p].startsHidden.GetOr(false))),
      map c | c in w.clues :: w.clues[c].(hidden := Some(true)))
  }

  /** After `build_world` every flag the game reads without a default is
      present, nothing is revealed that did not start revealed, and every
      clue is hidden. */
  lemma BuildWorldPrepares(w: World)
    ensures HiddenSet(BuildWorld(w))
    ensures forall c :: c in w.clues ==> BuildWorld(w).clues[c].hidden == Some(true)
    ensures forall p :: p in w.people && w.people[p].startsHidden == Some(true) ==>
      BuildWorld(w).people[p].hidden == Some(true)
  {
  }

  /** Building twice is building once: every flag is recomputed from fields
      `build_world` never writes. */
  lemma BuildWorldIdempotent(w: World)
    ensures BuildWorld(BuildWorld(w)) == BuildWorld(w)
  {
    var once := BuildWorld(w);
    var twice := BuildWorld(once);
    assert twice.locations == once.locations;
    assert twice.people == once.people;
    assert twice.clues == once.clues;
  }
}
