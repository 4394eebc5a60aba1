/**
 * Product search: the search page's results for `?q=`, and the header search
 * bar's live dropdown and submit.
 *
 * `toLowerCase` is locale- and Unicode-aware; the model takes it as a
 * parameter `lower` rather than fixing one case mapping.
 */
module Search {
  import opened Wrappers
  import Seqs
  import Text
  import Catalog

  /** How many matches the dropdown lists before offering "View all". */
  const DropdownSize: nat := 5

  /** The name, English name and description contain the lower-cased query (lower-cased themselves). */
  predicate TextMatches(p: Catalog.Product, query: string, lower: string -> string) {
    var q := lower(query);
    Text.Contains(lower(p.koreanName), q) || Text.Contains(lower(p.englishName), q)
    || Text.Contains(lower(p.description), q)
  }

  /** The search page also matches the category tag. */
  predicate PageMatches(p: Catalog.Product, query: string, lower: string -> string) {
    TextMatches(p, query, lower) || Text.Contains(lower(p.category.Name()), lower(query))
  }

  /** The search page's results for the `q` parameter (absent reads as empty). */
  function PageResults(ps: seq<Catalog.Product>, q: Option<string>, lower: string -> string): (r: seq<Catalog.Product>)
    ensures Text.IsBlank(q.GetOr("")) ==> r == []
    ensures !Text.IsBlank(q.GetOr("")) ==>
              (forall i :: 0 <= i < |r| ==> r[i] in ps && PageMatches(r[i], q.GetOr(""), lower))
              && (forall i :: 0 <= i < |ps| && PageMatches(ps[i], q.GetOr(""), lower) ==> ps[i] in r)
    ensures Seqs.IsSubsequence(r, ps)
  {
    var query := q.GetOr("");
    var keep := (p: Catalog.Product) => PageMatches(p, query, lower);
    Text.TrimEmptyIffBlank(query);
    Seqs.FilterIsSubsequence(ps, keep);
    if Text.Trim(query) == [] then []
    else Seqs.Filter(ps, keep)
  }

  /** The search bar: the input text, whether the dropdown is open, and the matches it holds. */
  datatype Bar = Bar(query: string, open: bool, results: seq<Catalog.Product>)

  const ClosedBar := Bar([], false, [])

  /** Typing: the query is replaced and the effect recomputes the matches, opening the dropdown for a non-blank query. */
  function TypeQuery(ps: seq<Catalog.Product>, text: string, lower: string -> string): (r: Bar)
    ensures r.query == text
    ensures r.open <==> !Text.IsBlank(text)
    ensures !r.open ==> r.results == []
    ensures r.open ==> (forall i :: 0 <= i < |r.results| ==> r.results[i] in ps && TextMatches(r.results[i], text, lower))
                       && (forall i :: 0 <= i < |ps| && TextMatches(ps[i], text, lower) ==> ps[i] in r.results)
    ensures Seqs.IsSubsequence(r.results, ps)
  {
    var keep := (p: Catalog.Product) => TextMatches(p, text, lower);
    Text.TrimEmptyIffBlank(text);
    Seqs.FilterIsSubsequence(ps, keep);
    if Text.Trim(text) == [] then Bar(text, false, [])
    else Bar(text, true, Seqs.Filter(ps, keep))
  }

  /** What the dropdown shows: up to five matches, a "View all N" link, or a "no results" note. */
  datatype Dropdown = Dropdown(listed: seq<Catalog.Product>, viewAll: Option<nat>, noResults: bool)

  function ShowDropdown(b: Bar): (r: Dropdown)
    ensures !b.open ==> r.listed == []
    ensures b.open ==> |r.listed| == (if |b.results| <= DropdownSize then |b.results| else DropdownSize)
                       && r.listed == b.results[..|r.listed|]
    ensures r.viewAll.Some? <==> b.open && |b.results| > DropdownSize
    ensures r.viewAll.Some? ==> r.viewAll.value == |b.results|
    ensures r.noResults <==> b.open && !Text.IsBlank(b.query) && b.results == []
  {
    Text.TrimEmptyIffBlank(b.query);
    var shown := b.open && |b.results| > 0;
    Dropdown(
      if shown then (if |b.results| <= DropdownSize then b.results else b.results[..DropdownSize]) else [],
      if shown && |b.results| > DropdownSize then Some(|b.results|) else None,
      b.open && Text.Trim(b.query) != [] && |b.results| == 0)
  }

  /**
   * Submitting: a non-blank query navigates to the search page with that query
   * and resets the bar; a blank one does nothing.
   */
  function Submit(b: Bar): (r: (Option<string>, Bar))
    ensures Text.IsBlank(b.query) ==> r == (None, b)
    ensures !Text.IsBlank(b.query) ==> r == (Some(b.query), ClosedBar)
  {
    Text.TrimEmptyIffBlank(b.query);
    if Text.Trim(b.query) == [] then (None, b) else (Some(b.query), ClosedBar)
  }

  /** The emoji shown beside a dropdown match: by character id, with a gift box for anything else. */
  function CharacterEmoji(characterId: Option<string>): (r: string)
    ensures characterId.None? ==> r == "\U{1F381}"
  {
    match characterId
    case None => "\U{1F381}"
    case Some(id) =>
      if id == "lamb" then "\U{1F411}"
      else if id == "lion" then "\U{1F981}"
      else if id == "squirrel" then "\U{1F43F}\U{FE0F}"
      else if id == "bear" then "\U{1F43B}"
      else if id == "deer" then "\U{1F98C}"
      else "\U{1F381}"
  }

  // ---------------------------------------------------------------- lemmas

  /**
   * What the bar finds for a query, the search page it submits to finds too,
   * in the same order; the page may find more, through the category tag.
   */
  lemma BarResultsWithinPage(ps: seq<Catalog.Product>, text: string, lower: string -> string)
    requires !Text.IsBlank(text)
    ensures Seqs.IsSubsequence(TypeQuery(ps, text, lower).results, PageResults(ps, Submit(TypeQuery(ps, text, lower)).0, lower))
  {
    Seqs.FilterMonotone(ps, (p: Catalog.Product) => TextMatches(p, text, lower),
                            (p: Catalog.Product) => PageMatches(p, text, lower));
  }

  /** A query that is only a category tag finds, on the search page, every product of that category. */
  lemma CategoryTagFindsCategory(ps: seq<Catalog.Product>, c: Catalog.Category, lower: string -> string, i: int)
    requires 0 <= i < |ps| && ps[i].category == c
    ensures ps[i] in PageResults(ps, Some(c.Name()), lower)
  {
    var q := lower(c.Name());
    assert Text.OccursAt(lower(c.Name()), q, 0) by {
      assert lower(c.Name())[0..|q|] == q;
    }
    assert !Text.IsBlank(c.Name()) by {
      assert !Text.IsWhitespace(c.Name()[0]);
    }
  }

  /** Submitting and then clearing leaves no dropdown at all. */
  lemma SubmitClosesDropdown(b: Bar)
    requires !Text.IsBlank(b.query)
    ensures ShowDropdown(Submit(b).1) == Dropdown([], None, false)
  {
  }
}
