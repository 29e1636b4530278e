/**
 * The public program list. Its state is two lists and a search term, each
 * replaced wholesale, so it is modelled as a value and two transitions.
 */
module ProgramList {
  import opened Wrappers
  import opened Seqs
  import opened Entities
  import opened Catalog

  datatype ListState = ListState(programs: seq<Program>, filteredPrograms: seq<Program>, searchTerm: string)

  const Initial := ListState([], [], "")

  /** `fetchPrograms`'s filter: the programs with `isVisible` set, in server order. */
  function VisiblePrograms(response: seq<Program>): (r: seq<Program>)
    ensures forall p :: p in r <==> p in response && p.isVisible
  {
    Filter(response, (p: Program) => p.isVisible)
  }

  /** `fetchPrograms`: both lists become the visible programs; a failed call changes nothing. */
  function FetchPrograms(s: ListState, response: Option<seq<Program>>): (t: ListState)
    ensures response.None? ==> t == s
    ensures response.Some? ==> t.programs == VisiblePrograms(response.value) && t.filteredPrograms == t.programs
    ensures t.searchTerm == s.searchTerm
  {
    if response.Some? then
      var visible := VisiblePrograms(response.value);
      s.(programs := visible, filteredPrograms := visible)
    else s
  }

  /** `handleSearch`: the visible programs whose title contains the term, ignoring case. */
  function HandleSearch(s: ListState): (t: ListState)
    ensures t.programs == s.programs && t.searchTerm == s.searchTerm
    ensures forall p :: p in t.filteredPrograms <==> p in s.programs && TitleMatches(p, s.searchTerm)
  {
    s.(filteredPrograms := TitleSearch(s.programs, s.searchTerm))
  }

  /** What the list shows is visible and drawn from the fetched programs. */
  ghost predicate ShowsOnlyVisible(s: ListState) {
    (forall p :: p in s.programs ==> p.isVisible)
    && (forall p :: p in s.filteredPrograms ==> p in s.programs)
  }

  /** Fetching and searching never bring an invisible program on screen. */
  lemma TransitionsShowOnlyVisible(s: ListState, response: Option<seq<Program>>)
    requires ShowsOnlyVisible(s)
    ensures ShowsOnlyVisible(FetchPrograms(s, response))
    ensures ShowsOnlyVisible(HandleSearch(s))
  {
  }

  /** Searching the fetched list is one filter by both conditions over the server's response. */
  lemma SearchAfterFetch(s: ListState, response: seq<Program>)
    ensures HandleSearch(FetchPrograms(s, Some(response))).filteredPrograms
         == Filter(response, (p: Program) => p.isVisible && TitleMatches(p, s.searchTerm))
  {
    var visible := (p: Program) => p.isVisible;
    var matches := (p: Program) => TitleMatches(p, s.searchTerm);
    var shown := VisiblePrograms(response);
    calc {
      HandleSearch(FetchPrograms(s, Some(response))).filteredPrograms;
      TitleSearch(shown, s.searchTerm);
      { FilterCongruent(shown, p => TitleMatches(p, s.searchTerm), matches); }
      Filter(Filter(response, visible), matches);
      { FilterFilter(response, visible, matches); }
      Filter(response, Both(visible, matches));
      { FilterCongruent(response, Both(visible, matches),
                        (p: Program) => p.isVisible && TitleMatches(p, s.searchTerm)); }
      Filter(response, (p: Program) => p.isVisible && TitleMatches(p, s.searchTerm));
    }
  }
}
