/**
 * The table of 3D scene URLs per character and its queries. The table is a
 * list of (character id, URL) pairs in declaration order, which is the
 * order `Object.entries` reports them in.
 */
module Spline {
  type SceneTable = seq<(string, string)>

  /** Every character has an empty URL: no scene has been published yet. */
  const Scenes: SceneTable := [("lamb", ""), ("lion", ""), ("squirrel", ""), ("bear", ""), ("dove", "")]

  /** Object keys are unique. */
  predicate UniqueKeys(t: SceneTable) {
    forall i, j :: 0 <= i < j < |t| ==> t[i].0 != t[j].0
  }

  predicate HasKey(t: SceneTable, id: string) {
    exists i :: 0 <= i < |t| && t[i].0 == id
  }

  /** `table[id] || ''`: the URL stored under `id`, or the empty string for an unknown id. */
  function SceneIn(t: SceneTable, id: string): (url: string)
    ensures !HasKey(t, id) ==> url == ""
    ensures forall i :: 0 <= i < |t| && t[i].0 == id && (forall j :: 0 <= j < i ==> t[j].0 != id) ==> url == t[i].1
  {
    if t == [] then ""
    else if t[0].0 == id then t[0].1
    else
      var r := SceneIn(t[1..], id);
      assert forall i :: 1 <= i < |t| ==> t[1..][i - 1] == t[i];
      r
  }

  /** `getCharacterScene(id)`. */
  function CharacterScene(id: string): string {
    SceneIn(Scenes, id)
  }

  /** `isSceneReady(id)`. */
  predicate IsSceneReady(id: string) {
    CharacterScene(id) != ""
  }

  /** The ids whose URL is non-empty (`ready`) or empty (`!ready`), in table order. */
  function KeysWhere(t: SceneTable, ready: bool): (ids: seq<string>)
    ensures |ids| <= |t|
    ensures forall id :: id in ids <==> exists i :: 0 <= i < |t| && t[i].0 == id && (t[i].1 != "") == ready
  {
    if t == [] then []
    else
      var rest := KeysWhere(t[1..], ready);
      assert forall i :: 1 <= i < |t| ==> t[1..][i - 1] == t[i];
      (if (t[0].1 != "") == ready then [t[0].0] else []) + rest
  }

  /** `getReadyCharacters()`. */
  function ReadyCharacters(): seq<string> {
    KeysWhere(Scenes, true)
  }

  /** `getPendingCharacters()`. */
  function PendingCharacters(): seq<string> {
    KeysWhere(Scenes, false)
  }

  // ---------------------------------------------------------------- properties

  /** Ready and pending split the keys: each key lands in exactly one, and the two add up to the table. */
  lemma {:induction false} ReadyPendingPartition(t: SceneTable)
    requires UniqueKeys(t)
    ensures forall i :: 0 <= i < |t| ==> (t[i].0 in KeysWhere(t, true) <==> t[i].0 !in KeysWhere(t, false))
    ensures |KeysWhere(t, true)| + |KeysWhere(t, false)| == |t|
  {
    if t != [] {
      assert UniqueKeys(t[1..]) by {
        assert forall i :: 0 <= i < |t| - 1 ==> t[1..][i] == t[i + 1];
      }
      ReadyPendingPartition(t[1..]);
    }
  }

  /** A key is listed as ready exactly when its lookup yields a non-empty URL. */
  lemma ReadyIffSceneReady(t: SceneTable, id: string)
    requires UniqueKeys(t)
    ensures id in KeysWhere(t, true) <==> SceneIn(t, id) != ""
  {
    if HasKey(t, id) {
      var i :| 0 <= i < |t| && t[i].0 == id;
      assert forall j :: 0 <= j < |t| && t[j].0 == id ==> j == i;
    }
  }

  /** With the current table nothing is ready and every character, in order, is pending. */
  lemma NothingReadyYet()
    ensures ReadyCharacters() == []
    ensures PendingCharacters() == ["lamb", "lion", "squirrel", "bear", "dove"]
    ensures forall id :: !IsSceneReady(id)
  {
    forall id ensures !IsSceneReady(id) {
      if HasKey(Scenes, id) {
        var i :| 0 <= i < |Scenes| && Scenes[i].0 == id;
        assert Scenes[i].1 == "";
      }
    }
  }
}
