/**
 * The two character tables and their lookups: the roommates table used by
 * the story pages (`lib/characters.ts`) and the world table that ties each
 * character to a plush product and an idle-animation schedule
 * (`lib/characterData.ts`). Only the fields the lookups and the stated
 * invariants read are kept; the prose fields are static text.
 */
module Characters {
  import opened Wrappers
  import Seqs
  import Quiz

  // ---------------------------------------------------------------- roommates

  datatype Character = Character(id: string, name: string, koreanName: string, englishName: string)

  const Roommates: seq<Character> := [
    Character("lamb", "램비", "램비", "Lambie"),
    Character("lion", "아리", "아리", "Ari"),
    Character("squirrel", "다비", "다비", "Davi"),
    Character("bear", "코코", "코코", "Coco"),
    Character("deer", "디올", "디올", "Dior")
  ]

  /** `getCharacterById(id)`: the first entry with that id. */
  function CharacterById(id: string): (r: Option<Character>)
    ensures r.Some? ==> r.value in Roommates && r.value.id == id
    ensures r.None? <==> forall i :: 0 <= i < |Roommates| ==> Roommates[i].id != id
  {
    Seqs.Find(Roommates, (c: Character) => c.id == id)
  }

  /** The name matches any of the three name fields. */
  predicate NamedAs(c: Character, n: string) {
    c.name == n || c.koreanName == n || c.englishName == n
  }

  /** `getCharacterByName(n)`: the first entry any of whose names equals `n`. */
  function CharacterByName(n: string): (r: Option<Character>)
    ensures r.Some? ==> exists i :: 0 <= i < |Roommates| && Roommates[i] == r.value && NamedAs(r.value, n)
                          && forall j :: 0 <= j < i ==> !NamedAs(Roommates[j], n)
    ensures r.None? <==> forall i :: 0 <= i < |Roommates| ==> !NamedAs(Roommates[i], n)
  {
    Seqs.Find(Roommates, (c: Character) => NamedAs(c, n))
  }

  /** The roommates' ids, in table order; they are pairwise distinct. */
  lemma RoommateIds()
    ensures |Roommates| == 5
    ensures forall i, j :: 0 <= i < j < |Roommates| ==> Roommates[i].id != Roommates[j].id
    ensures forall i :: 0 <= i < |Roommates| ==> CharacterById(Roommates[i].id) == Some(Roommates[i])
  {
    var rs := Roommates;
    forall i | 0 <= i < |rs| ensures CharacterById(rs[i].id) == Some(rs[i]) {
      Seqs.FindFirst(rs, (c: Character) => c.id == rs[i].id, i);
    }
  }

  /**
   * The roommates table has no dove, so the quiz's dove result finds no
   * character, while its other three results all do.
   */
  lemma QuizResultLookup(answers: Quiz.Answers)
    ensures var r := Quiz.CharacterFromAnswers(answers);
      CharacterById(r).None? <==> r == "dove"
  {
  }

  // ---------------------------------------------------------------- world table

  datatype Motion = Walk | Idle | Hop | Wave | Sleep

  /** One idle-animation step: a duration in milliseconds and a selection probability. */
  datatype Behavior = Behavior(motion: Motion, duration: int, probability: real)

  datatype StoryCharacter = StoryCharacter(id: string, productId: string, behaviors: seq<Behavior>)

  const World: seq<StoryCharacter> := [
    StoryCharacter("lamb", "lamb-plush",
      [Behavior(Walk, 3000, 0.4), Behavior(Idle, 2000, 0.3), Behavior(Hop, 1000, 0.2), Behavior(Wave, 1500, 0.1)]),
    StoryCharacter("lion", "lion-plush",
      [Behavior(Walk, 4000, 0.3), Behavior(Idle, 3000, 0.4), Behavior(Wave, 2000, 0.2), Behavior(Sleep, 2500, 0.1)]),
    StoryCharacter("squirrel", "squirrel-plush",
      [Behavior(Walk, 2000, 0.3), Behavior(Hop, 800, 0.4), Behavior(Idle, 1500, 0.2), Behavior(Wave, 1000, 0.1)]),
    StoryCharacter("bear", "bear-plush",
      [Behavior(Walk, 4500, 0.2), Behavior(Idle, 3500, 0.4), Behavior(Sleep, 3000, 0.3), Behavior(Wave, 2000, 0.1)]),
    StoryCharacter("deer", "deer-plush",
      [Behavior(Walk, 3500, 0.5), Behavior(Idle, 2500, 0.3), Behavior(Hop, 1200, 0.1), Behavior(Wave, 1800, 0.1)])
  ]

  /** `getCharacterById(id)` over the world table. */
  function StoryCharacterById(id: string): (r: Option<StoryCharacter>)
    ensures r.Some? ==> r.value in World && r.value.id == id
    ensures r.None? <==> forall i :: 0 <= i < |World| ==> World[i].id != id
  {
    Seqs.Find(World, (c: StoryCharacter) => c.id == id)
  }

  /** `getCharacterByProductId(productId)`. */
  function StoryCharacterByProduct(productId: string): (r: Option<StoryCharacter>)
    ensures r.Some? ==> r.value in World && r.value.productId == productId
    ensures r.None? <==> forall i :: 0 <= i < |World| ==> World[i].productId != productId
  {
    Seqs.Find(World, (c: StoryCharacter) => c.productId == productId)
  }

  /** A behaviour as its field comments describe it: positive duration, probability in [0, 1]. */
  predicate SaneBehavior(b: Behavior) {
    b.duration > 0 && 0.0 <= b.probability <= 1.0
  }

  function ProbabilityTotal(bs: seq<Behavior>): real {
    if bs == [] then 0.0 else bs[0].probability + ProbabilityTotal(bs[1..])
  }

  /** Ids and product ids are each unique across the world table. */
  lemma WorldKeysUnique()
    ensures forall i, j :: 0 <= i < j < |World| ==> World[i].id != World[j].id && World[i].productId != World[j].productId
  {
  }

  /** Because the keys are unique, each lookup returns the entry that holds the key. */
  lemma WorldLookupsFindOwner(i: nat)
    requires i < |World|
    ensures StoryCharacterById(World[i].id) == Some(World[i])
    ensures StoryCharacterByProduct(World[i].productId) == Some(World[i])
  {
    WorldKeysUnique();
    var w := World;
    Seqs.FindFirst(w, (c: StoryCharacter) => c.id == w[i].id, i);
    Seqs.FindFirst(w, (c: StoryCharacter) => c.productId == w[i].productId, i);
  }

  /** Every behaviour has a positive duration and a probability in [0, 1]. */
  lemma WorldBehaviorsSane()
    ensures forall i, k :: 0 <= i < |World| && 0 <= k < |World[i].behaviors| ==> SaneBehavior(World[i].behaviors[k])
  {
  }

  /** Each character's behaviour probabilities add up to exactly 1. */
  lemma WorldProbabilitiesSumToOne(i: nat)
    requires i < |World|
    ensures ProbabilityTotal(World[i].behaviors) == 1.0
  {
    var bs := World[i].behaviors;
    assert bs[1..][1..][1..][1..] == [];
  }

  /** The two tables list the same five ids in the same order. */
  lemma TablesAgreeOnIds()
    ensures |World| == |Roommates|
    ensures forall i :: 0 <= i < |World| ==> World[i].id == Roommates[i].id
  {
  }
}
