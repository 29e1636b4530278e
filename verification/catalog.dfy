/** The case-insensitive title search shared by the program lists. */
module Catalog {
  import opened Text
  import opened Seqs
  import opened Entities

  /** `program.title.toLowerCase().includes(term.toLowerCase())`. */
  predicate TitleMatches(p: Program, term: string) {
    ContainsIgnoringCase(p.title, term)
  }

  /**
   * `programs.filter(program => TitleMatches(program, term))`: exactly the
   * programs whose lower-cased title contains the lower-cased term, in list
   * order (FilterAppend).
   */
  function TitleSearch(programs: seq<Program>, term: string): (r: seq<Program>)
    ensures forall p :: p in r <==> p in programs && TitleMatches(p, term)
  {
    Filter(programs, p => TitleMatches(p, term))
  }

  /** An empty term matches every title, so the search returns the whole list. */
  lemma TitleSearchEmptyTerm(programs: seq<Program>)
    ensures TitleSearch(programs, "") == programs
  {
    forall i | 0 <= i < |programs| ensures TitleMatches(programs[i], "") {
      IncludesEmpty(Lower(programs[i].title));
    }
    FilterKeepsAll(programs, p => TitleMatches(p, ""));
  }

  /** Lower-casing the term first, as the pipeline page does, changes nothing. */
  lemma TitleSearchLoweredTerm(programs: seq<Program>, term: string)
    ensures TitleSearch(programs, Lower(term)) == TitleSearch(programs, term)
  {
    LowerIdempotent(term);
    FilterCongruent(programs, p => TitleMatches(p, Lower(term)), p => TitleMatches(p, term));
  }
}
