/** The "my programs" page: the list, its title search, and the per-program menu. */
module Programmes {
  import opened Wrappers
  import opened Seqs
  import opened Entities
  import opened Catalog

  /** The body `handleShareProgram` sends to `updateProgram`. */
  datatype VisibilityUpdate = VisibilityUpdate(title: string, description: string, isVisible: bool)

  /**
   * `handleShareProgram`: the first program with the id, sent back with its
   * visibility flipped; nothing is sent when no program has the id.
   */
  function ShareRequest(programs: seq<Program>, programId: Id): (r: Option<VisibilityUpdate>)
    ensures r.None? <==> forall i :: 0 <= i < |programs| ==> programs[i].id != programId
    ensures r.Some? ==> exists p :: (p in programs && p.id == programId
                                     && r.value == VisibilityUpdate(p.title, p.description, !p.isVisible))
  {
    match Find(programs, (p: Program) => p.id == programId)
    case Some(p) => Some(VisibilityUpdate(p.title, p.description, !p.isVisible))
    case None => None
  }

  /** Once the backend has applied a share, sharing the same program again asks for the old visibility. */
  lemma ShareTwiceRestores(p: Program, others: seq<Program>)
    requires forall i :: 0 <= i < |others| ==> others[i].id != p.id
    ensures var u := ShareRequest([p] + others, p.id).value;
      var shared := p.(title := u.title, description := u.description, isVisible := u.isVisible);
      ShareRequest([shared] + others, p.id) == Some(VisibilityUpdate(p.title, p.description, p.isVisible))
  {
  }

  class ProgrammesView {
    var programs: seq<Program>
    var filteredPrograms: seq<Program>
    /** No input on the page sets it, so it stays the empty string it starts as. */
    var searchTerm: string

    constructor ()
      ensures programs == [] && filteredPrograms == [] && searchTerm == ""
    {
      programs := [];
      filteredPrograms := [];
      searchTerm := "";
    }

    /** `fetchPrograms`: the response, unfiltered, in both lists. */
    method FetchPrograms(response: Option<seq<Program>>)
      modifies this`programs, this`filteredPrograms
      ensures response.None? ==> programs == old(programs) && filteredPrograms == old(filteredPrograms)
      ensures response.Some? ==> programs == response.value && filteredPrograms == response.value
    {
      if response.Some? {
        programs := response.value;
        filteredPrograms := response.value;
      }
    }

    /** `handleSearch`: an empty term brings back every program. */
    method Search()
      modifies this`filteredPrograms
      ensures filteredPrograms == TitleSearch(programs, searchTerm)
      ensures searchTerm == "" ==> filteredPrograms == programs
    {
      filteredPrograms := TitleSearch(programs, searchTerm);
      if searchTerm == "" {
        TitleSearchEmptyTerm(programs);
      }
    }

    /** `handleShareProgram`: when a request goes out and succeeds, the list is fetched again. */
    method Share(programId: Id, ok: bool, refetch: Option<seq<Program>>) returns (request: Option<VisibilityUpdate>)
      modifies this`programs, this`filteredPrograms
      ensures request == ShareRequest(old(programs), programId)
      ensures request.None? || !ok || refetch.None? ==>
        programs == old(programs) && filteredPrograms == old(filteredPrograms)
      ensures request.Some? && ok && refetch.Some? ==> programs == refetch.value && filteredPrograms == refetch.value
    {
      request := ShareRequest(programs, programId);
      if request.Some? && ok {
        FetchPrograms(refetch);
      }
    }

    /** `handleDeleteProgram`: on success the list is fetched again. */
    method Delete(ok: bool, refetch: Option<seq<Program>>)
      modifies this`programs, this`filteredPrograms
      ensures !ok || refetch.None? ==> programs == old(programs) && filteredPrograms == old(filteredPrograms)
      ensures ok && refetch.Some? ==> programs == refetch.value && filteredPrograms == refetch.value
    {
      if ok {
        FetchPrograms(refetch);
      }
    }
  }

  /** The handler a menu item calls. */
  datatype MenuCall = OnEdit(programId: Id) | OnDelete(programId: Id) | OnShare(programId: Id)

  datatype MenuItem = EditItem | DeleteItem | ShareItem

  /** The ellipsis menu on one program card. */
  class ProgramMenu {
    const programId: Id
    var isOpen: bool

    constructor (programId: Id)
      ensures this.programId == programId && !isOpen
    {
      this.programId := programId;
      isOpen := false;
    }

    /** The ellipsis flips the menu. */
    method Toggle()
      modifies this`isOpen
      ensures isOpen == !old(isOpen)
    {
      isOpen := !isOpen;
    }

    /** Each item calls its handler with the card's program id and then closes the menu. */
    method Choose(item: MenuItem) returns (call: MenuCall)
      modifies this`isOpen
      ensures !isOpen
      ensures call.programId == programId
      ensures call.OnEdit? <==> item == EditItem
      ensures call.OnDelete? <==> item == DeleteItem
      ensures call.OnShare? <==> item == ShareItem
    {
      call := match item
        case EditItem => OnEdit(programId)
        case DeleteItem => OnDelete(programId)
        case ShareItem => OnShare(programId);
      isOpen := false;
    }
  }
}
