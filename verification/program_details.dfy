/**
 * The program detail card: its comments, threaded into a forest by their
 * `parent` links, and the reactions (like, dislike, share, love) users leave
 * on the program and on its comments.
 */
module ProgramDetails {
  import opened Wrappers
  import opened Seqs
  import opened Entities

  // ---------------------------------------------------------------- comments

  /** A comment is a reply when its `parent` is truthy; otherwise it is a thread root. */
  predicate IsReply(c: Comment) {
    IsTruthyId(c.parent)
  }

  predicate IsRoot(c: Comment) {
    !IsReply(c)
  }

  /** The comments `fetchComments` keeps: those posted on the program being shown. */
  function ProgramComments(comments: seq<Comment>, programId: Id): (r: seq<Comment>)
    ensures forall c :: c in r <==> c in comments && c.program == programId
  {
    Filter(comments, (c: Comment) => c.program == programId)
  }

  function CommentId(c: Comment): Id {
    c.id
  }

  function Ids(cs: seq<Comment>): seq<Id> {
    Map(cs, CommentId)
  }

  /**
   * The first pass of `buildCommentsTree`: one entry per id; when two
   * comments share an id the later one wins.
   */
  function Index(cs: seq<Comment>): (m: map<Id, Comment>)
    ensures forall k :: k in m <==> exists i :: 0 <= i < |cs| && cs[i].id == k
    decreases |cs|
  {
    if cs == [] then map[]
    else
      var m' := Index(cs[..|cs| - 1]);
      assert forall i :: 0 <= i < |cs| - 1 ==> cs[..|cs| - 1][i] == cs[i];
      m'[cs[|cs| - 1].id := cs[|cs| - 1]]
  }

  /** The node for an id holds the last comment with that id. */
  lemma {:induction false} IndexHoldsLast(cs: seq<Comment>, i: int)
    requires 0 <= i < |cs|
    requires forall j :: i < j < |cs| ==> cs[j].id != cs[i].id
    ensures cs[i].id in Index(cs) && Index(cs)[cs[i].id] == cs[i]
    decreases |cs|
  {
    if i < |cs| - 1 {
      IndexHoldsLast(cs[..|cs| - 1], i);
    }
  }

  /** Comments replying to `k`, in list order. */
  predicate RepliesTo(c: Comment, k: Id) {
    IsReply(c) && c.parent.value == k
  }

  function ChildIds(cs: seq<Comment>, k: Id): seq<Id> {
    Ids(Filter(cs, (c: Comment) => RepliesTo(c, k)))
  }

  function RootIds(cs: seq<Comment>): seq<Id> {
    Ids(Filter(cs, IsRoot))
  }

  /**
   * The comment forest as `buildCommentsTree` leaves it. The JavaScript pushes
   * references to shared node objects, so the forest is a list of root ids,
   * the node of each id, and the child ids of each node.
   */
  datatype Forest = Forest(roots: seq<Id>, nodes: map<Id, Comment>, children: map<Id, seq<Id>>)

  /** `f` is the forest `buildCommentsTree` builds from `cs`. */
  ghost predicate ForestOf(f: Forest, cs: seq<Comment>) {
    && f.nodes == Index(cs)
    && f.roots == RootIds(cs)
    && f.children.Keys == f.nodes.Keys
    && ChildrenOf(f.children, cs)
  }

  /**
   * `buildCommentsTree`: every id gets a node with no children; then each
   * reply whose parent has a node is appended to that parent's children, and
   * each non-reply is appended to the roots.
   */
  method BuildCommentsTree(comments: seq<Comment>) returns (forest: Forest)
    ensures forest.nodes == Index(comments)
    ensures forest.children.Keys == forest.nodes.Keys
    ensures forest.roots == RootIds(comments)
    ensures ChildrenOf(forest.children, comments)
  {
    var nodes, children := IndexComments(comments);
    var roots;
    roots, children := AttachComments(comments, nodes, children);
    forest := Forest(roots, nodes, children);
  }

  /** The first pass of `buildCommentsTree`: a node with no children for every id. */
  method IndexComments(comments: seq<Comment>) returns (nodes: map<Id, Comment>, children: map<Id, seq<Id>>)
    ensures nodes == Index(comments)
    ensures children.Keys == nodes.Keys
    ensures ChildrenOf(children, [])
  {
    nodes, children := map[], map[];
    var i := 0;
    while i < |comments|
      invariant 0 <= i <= |comments|
      invariant nodes == Index(comments[..i])
      invariant children.Keys == nodes.Keys
      invariant forall k :: k in children ==> children[k] == []
    {
      assert comments[..i + 1] == comments[..i] + [comments[i]];
      IndexStep(comments[..i], comments[i]);
      nodes := nodes[comments[i].id := comments[i]];
      children := children[comments[i].id := []];
      i := i + 1;
    }
    assert comments[..|comments|] == comments;
  }

  /**
   * The second pass of `buildCommentsTree`: each reply whose parent has a
   * node is appended to that node's children, each non-reply to the roots.
   */
  method AttachComments(comments: seq<Comment>, nodes: map<Id, Comment>, children0: map<Id, seq<Id>>)
    returns (roots: seq<Id>, children: map<Id, seq<Id>>)
    requires children0.Keys == nodes.Keys
    requires ChildrenOf(children0, [])
    ensures children.Keys == nodes.Keys
    ensures roots == RootIds(comments)
    ensures ChildrenOf(children, comments)
  {
    roots, children := [], children0;
    ghost var done: seq<Comment> := [];
    var i := 0;
    while i < |comments|
      invariant 0 <= i <= |comments|
      invariant done == comments[..i]
      invariant children.Keys == nodes.Keys
      invariant roots == RootIds(done)
      invariant ChildrenOf(children, done)
    {
      var c := comments[i];
      RootStep(done, c);
      AttachStep(children, nodes, done, c);
      if IsReply(c) {
        if c.parent.value in nodes {
          children := children[c.parent.value := children[c.parent.value] + [c.id]];
        }
      } else {
        roots := roots + [c.id];
      }
      done := done + [c];
      assert done == comments[..i + 1];
      i := i + 1;
    }
    assert done == comments;
  }

  lemma IndexStep(cs: seq<Comment>, c: Comment)
    ensures Index(cs + [c]) == Index(cs)[c.id := c]
  {
    assert (cs + [c])[..|cs|] == cs;
  }

  lemma RootStep(cs: seq<Comment>, c: Comment)
    ensures RootIds(cs + [c]) == RootIds(cs) + (if IsRoot(c) then [c.id] else [])
  {
    assert (cs + [c])[..|cs|] == cs;
    MapAppend(Filter(cs, IsRoot), if IsRoot(c) then [c] else [], CommentId);
  }

  /** Each node's children are the ids of the replies to it, in list order. */
  ghost predicate ChildrenOf(children: map<Id, seq<Id>>, cs: seq<Comment>) {
    forall k :: k in children ==> children[k] == ChildIds(cs, k)
  }

  /** Attaching one more comment to its parent node, when there is one, keeps ChildrenOf and the node set. */
  lemma AttachStep(children: map<Id, seq<Id>>, nodes: map<Id, Comment>, cs: seq<Comment>, c: Comment)
    requires children.Keys == nodes.Keys
    requires ChildrenOf(children, cs)
    ensures var children' :=
      if IsReply(c) && c.parent.value in nodes
      then children[c.parent.value := children[c.parent.value] + [c.id]]
      else children;
      children'.Keys == nodes.Keys && ChildrenOf(children', cs + [c])
  {
    forall k | k in children {
      ChildStep(cs, c, k);
    }
  }

  lemma ChildStep(cs: seq<Comment>, c: Comment, k: Id)
    ensures ChildIds(cs + [c], k) == ChildIds(cs, k) + (if RepliesTo(c, k) then [c.id] else [])
  {
    assert (cs + [c])[..|cs|] == cs;
    MapAppend(Filter(cs, (c: Comment) => RepliesTo(c, k)), if RepliesTo(c, k) then [c] else [], CommentId);
  }

  /** No two comments share an id, as the backend guarantees. */
  ghost predicate UniqueIds(cs: seq<Comment>) {
    forall i, j :: 0 <= i < j < |cs| ==> cs[i].id != cs[j].id
  }

  /** The roots are exactly the ids of the non-replies. */
  lemma RootsAreNonReplies(cs: seq<Comment>, k: Id)
    ensures k in RootIds(cs) <==> exists c :: c in cs && IsRoot(c) && c.id == k
  {
    var f := Filter(cs, IsRoot);
    if k in RootIds(cs) {
      var i :| 0 <= i < |f| && RootIds(cs)[i] == k;
      assert f[i] in cs;
    }
    if exists c :: c in cs && IsRoot(c) && c.id == k {
      var c :| c in cs && IsRoot(c) && c.id == k;
      var j :| 0 <= j < |cs| && cs[j] == c;
      assert c in f;
      var i :| 0 <= i < |f| && f[i] == c;
      assert RootIds(cs)[i] == k;
    }
  }

  /** A child id of `k` is the id of a reply to `k`. */
  lemma ChildrenAreReplies(cs: seq<Comment>, k: Id, x: Id)
    ensures x in ChildIds(cs, k) <==> exists c :: c in cs && RepliesTo(c, k) && c.id == x
  {
    var f := Filter(cs, (c: Comment) => RepliesTo(c, k));
    if x in ChildIds(cs, k) {
      var i :| 0 <= i < |f| && ChildIds(cs, k)[i] == x;
      assert f[i] in cs && RepliesTo(f[i], k);
    }
    if exists c :: c in cs && RepliesTo(c, k) && c.id == x {
      var c :| c in cs && RepliesTo(c, k) && c.id == x;
      var j :| 0 <= j < |cs| && cs[j] == c;
      assert c in f;
      var i :| 0 <= i < |f| && f[i] == c;
      assert ChildIds(cs, k)[i] == x;
    }
  }

  /**
   * A reply whose parent is not in the list is dropped: its id is neither a
   * root nor a child of any node.
   */
  lemma OrphanIsDropped(cs: seq<Comment>, j: int)
    requires UniqueIds(cs)
    requires 0 <= j < |cs| && IsReply(cs[j]) && cs[j].parent.value !in Index(cs)
    ensures cs[j].id !in RootIds(cs)
    ensures forall k :: k in Index(cs) ==> cs[j].id !in ChildIds(cs, k)
  {
    forall k | k in Index(cs) ensures cs[j].id !in ChildIds(cs, k) {
      OrphanIsNoChild(cs, j, k);
    }
    RootsAreNonReplies(cs, cs[j].id);
    if cs[j].id in RootIds(cs) {
      var c :| c in cs && IsRoot(c) && c.id == cs[j].id;
      var i :| 0 <= i < |cs| && cs[i] == c;
      assert false;
    }
  }

  lemma OrphanIsNoChild(cs: seq<Comment>, j: int, k: Id)
    requires UniqueIds(cs)
    requires 0 <= j < |cs| && IsReply(cs[j]) && cs[j].parent.value !in Index(cs)
    requires k in Index(cs)
    ensures cs[j].id !in ChildIds(cs, k)
  {
    ChildrenAreReplies(cs, k, cs[j].id);
    if cs[j].id in ChildIds(cs, k) {
      var c :| c in cs && RepliesTo(c, k) && c.id == cs[j].id;
      var i :| 0 <= i < |cs| && cs[i] == c;
      assert false;
    }
  }

  /** Threads keep the input order: comments appended to the list land after the existing roots and children. */
  lemma ForestExtends(cs: seq<Comment>, more: seq<Comment>, k: Id)
    ensures RootIds(cs + more) == RootIds(cs) + RootIds(more)
    ensures ChildIds(cs + more, k) == ChildIds(cs, k) + ChildIds(more, k)
  {
    FilterAppend(cs, more, IsRoot);
    MapAppend(Filter(cs, IsRoot), Filter(more, IsRoot), CommentId);
    FilterAppend(cs, more, (c: Comment) => RepliesTo(c, k));
    MapAppend(Filter(cs, (c: Comment) => RepliesTo(c, k)), Filter(more, (c: Comment) => RepliesTo(c, k)), CommentId);
  }

  // --------------------------------------------------------------- reactions

  /** The four counters every histogram bucket starts with at zero. */
  datatype Tally = Tally(like: nat, dislike: nat, share: nat, love: nat)

  const Zero := Tally(0, 0, 0, 0)

  predicate Recognised(r: Reaction) {
    !r.Unrecognised?
  }

  /** `tally[type] || 0`: an unrecognised type reads as 0. */
  function Count(t: Tally, r: Reaction): nat {
    match r
    case Like => t.like
    case Dislike => t.dislike
    case Share => t.share
    case Love => t.love
    case Unrecognised(_) => 0
  }

  /**
   * `tally[type]++`: bumps the counter of a recognised type. An unrecognised
   * type creates a NaN entry under its own name, which `Count` reads as 0,
   * so it changes none of the four counters.
   */
  function Add(t: Tally, r: Reaction): (t': Tally)
    ensures forall q :: Count(t', q) == Count(t, q) + (if q == r && Recognised(r) then 1 else 0)
  {
    match r
    case Like => t.(like := t.like + 1)
    case Dislike => t.(dislike := t.dislike + 1)
    case Share => t.(share := t.share + 1)
    case Love => t.(love := t.love + 1)
    case Unrecognised(_) => t
  }

  /** The histogram an action is counted in: its program when `programId` is truthy, else its comment. */
  datatype Bucket = ProgramBucket(programId: Id) | CommentBucket(commentId: Option<Id>)

  function BucketOf(a: Action): (b: Bucket)
    ensures b.ProgramBucket? <==> IsTruthyId(a.programId)
    ensures b.ProgramBucket? ==> b.programId == a.programId.value
    ensures b.CommentBucket? ==> b.commentId == a.commentId
  {
    if IsTruthyId(a.programId) then ProgramBucket(a.programId.value) else CommentBucket(a.commentId)
  }

  function Buckets(actions: seq<Action>): seq<Bucket> {
    Map(actions, BucketOf)
  }

  /** The number of actions of kind `r` in bucket `b`: the reference the histograms are checked against. */
  function Occurrences(actions: seq<Action>, b: Bucket, r: Reaction): nat {
    |Filter(actions, (a: Action) => BucketOf(a) == b && a.kind == r)|
  }

  lemma OccurrencesStep(actions: seq<Action>, a: Action, b: Bucket, r: Reaction)
    ensures Occurrences(actions + [a], b, r)
         == Occurrences(actions, b, r) + (if BucketOf(a) == b && a.kind == r then 1 else 0)
  {
    assert (actions + [a])[..|actions|] == actions;
  }

  /** A bucket no action falls into counts nothing. */
  lemma {:induction false} OccurrencesAbsent(actions: seq<Action>, b: Bucket, r: Reaction)
    requires b !in Buckets(actions)
    ensures Occurrences(actions, b, r) == 0
    decreases |actions|
  {
    if actions != [] {
      var init := actions[..|actions| - 1];
      assert actions == init + [actions[|actions| - 1]];
      assert Buckets(actions) == Buckets(init) + [BucketOf(actions[|actions| - 1])];
      OccurrencesAbsent(init, b, r);
      OccurrencesStep(init, actions[|actions| - 1], b, r);
    }
  }

  /** Tally `t` counts exactly the actions of each recognised kind in bucket `b`. */
  ghost predicate Exact(t: Tally, actions: seq<Action>, b: Bucket) {
    forall r :: Recognised(r) ==> Count(t, r) == Occurrences(actions, b, r)
  }

  /** Counting one more action keeps a tally exact: bumped when the action falls in its bucket, kept otherwise. */
  lemma ExactStep(t: Tally, actions: seq<Action>, a: Action, b: Bucket)
    requires Exact(t, actions, b)
    ensures Exact(if BucketOf(a) == b then Add(t, a.kind) else t, actions + [a], b)
  {
    forall r | Recognised(r)
      ensures Count(if BucketOf(a) == b then Add(t, a.kind) else t, r) == Occurrences(actions + [a], b, r)
    {
      OccurrencesStep(actions, a, b, r);
    }
  }

  /** A zeroed tally is exact for a bucket no action has fallen in yet. */
  lemma ExactFresh(actions: seq<Action>, b: Bucket)
    requires b !in Buckets(actions)
    ensures Exact(Zero, actions, b)
  {
    forall r | Recognised(r) ensures Occurrences(actions, b, r) == 0 {
      OccurrencesAbsent(actions, b, r);
    }
  }

  /** The program histogram: one entry per program some action targets, counting that program's actions. */
  ghost predicate ProgramTallies(counts: map<Id, Tally>, actions: seq<Action>) {
    (forall k :: k in counts <==> ProgramBucket(k) in Buckets(actions))
    && (forall k :: k in counts ==> Exact(counts[k], actions, ProgramBucket(k)))
  }

  /** The comment histogram, keyed by `commentId` (absent ids share one entry, as `null` does as a key). */
  ghost predicate CommentTallies(counts: map<Option<Id>, Tally>, actions: seq<Action>) {
    (forall k :: k in counts <==> CommentBucket(k) in Buckets(actions))
    && (forall k :: k in counts ==> Exact(counts[k], actions, CommentBucket(k)))
  }

  function TallyOf<K>(counts: map<K, Tally>, k: K): Tally {
    if k in counts then counts[k] else Zero
  }

  lemma ProgramTalliesStep(counts: map<Id, Tally>, actions: seq<Action>, a: Action)
    requires ProgramTallies(counts, actions)
    ensures BucketOf(a).ProgramBucket? ==>
      var k := BucketOf(a).programId;
      ProgramTallies(counts[k := Add(TallyOf(counts, k), a.kind)], actions + [a])
    ensures BucketOf(a).CommentBucket? ==> ProgramTallies(counts, actions + [a])
  {
    MapAppend(actions, [a], BucketOf);
    var after := actions + [a];
    assert Buckets(after) == Buckets(actions) + [BucketOf(a)];
    if BucketOf(a).ProgramBucket? {
      var k0 := BucketOf(a).programId;
      var counts' := counts[k0 := Add(TallyOf(counts, k0), a.kind)];
      forall k ensures k in counts' <==> ProgramBucket(k) in Buckets(after) {
      }
      forall k | k in counts' ensures Exact(counts'[k], after, ProgramBucket(k)) {
        if k == k0 && k0 !in counts {
          ExactFresh(actions, ProgramBucket(k));
          ExactStep(Zero, actions, a, ProgramBucket(k));
        } else {
          ExactStep(counts[k], actions, a, ProgramBucket(k));
        }
      }
    } else {
      forall k ensures k in counts <==> ProgramBucket(k) in Buckets(after) {
      }
      forall k | k in counts ensures Exact(counts[k], after, ProgramBucket(k)) {
        ExactStep(counts[k], actions, a, ProgramBucket(k));
      }
    }
  }

  lemma CommentTalliesStep(counts: map<Option<Id>, Tally>, actions: seq<Action>, a: Action)
    requires CommentTallies(counts, actions)
    ensures BucketOf(a).CommentBucket? ==>
      var k := BucketOf(a).commentId;
      CommentTallies(counts[k := Add(TallyOf(counts, k), a.kind)], actions + [a])
    ensures BucketOf(a).ProgramBucket? ==> CommentTallies(counts, actions + [a])
  {
    MapAppend(actions, [a], BucketOf);
    var after := actions + [a];
    assert Buckets(after) == Buckets(actions) + [BucketOf(a)];
    if BucketOf(a).CommentBucket? {
      var k0 := BucketOf(a).commentId;
      var counts' := counts[k0 := Add(TallyOf(counts, k0), a.kind)];
      forall k ensures k in counts' <==> CommentBucket(k) in Buckets(after) {
      }
      forall k | k in counts' ensures Exact(counts'[k], after, CommentBucket(k)) {
        if k == k0 && k0 !in counts {
          ExactFresh(actions, CommentBucket(k));
          ExactStep(Zero, actions, a, CommentBucket(k));
        } else {
          ExactStep(counts[k], actions, a, CommentBucket(k));
        }
      }
    } else {
      forall k ensures k in counts <==> CommentBucket(k) in Buckets(after) {
      }
      forall k | k in counts ensures Exact(counts[k], after, CommentBucket(k)) {
        ExactStep(counts[k], actions, a, CommentBucket(k));
      }
    }
  }

  /**
   * `updateActionCounts`: one pass over the actions, creating a zeroed bucket
   * the first time an entity is seen and bumping the counter of the action's
   * type.
   */
  method UpdateActionCounts(actions: seq<Action>)
    returns (programCounts: map<Id, Tally>, commentCounts: map<Option<Id>, Tally>)
    ensures ProgramTallies(programCounts, actions)
    ensures CommentTallies(commentCounts, actions)
  {
    programCounts, commentCounts := map[], map[];
    var i := 0;
    while i < |actions|
      invariant 0 <= i <= |actions|
      invariant ProgramTallies(programCounts, actions[..i])
      invariant CommentTallies(commentCounts, actions[..i])
    {
      var a := actions[i];
      assert actions[..i + 1] == actions[..i] + [a];
      ProgramTalliesStep(programCounts, actions[..i], a);
      CommentTalliesStep(commentCounts, actions[..i], a);
      if IsTruthyId(a.programId) {
        var k := a.programId.value;
        if k !in programCounts {
          programCounts := programCounts[k := Zero];
        }
        programCounts := programCounts[k := Add(programCounts[k], a.kind)];
      } else {
        var k := a.commentId;
        if k !in commentCounts {
          commentCounts := commentCounts[k := Zero];
        }
        commentCounts := commentCounts[k := Add(commentCounts[k], a.kind)];
      }
      i := i + 1;
    }
    assert actions[..|actions|] == actions;
  }

  /** The `entity` argument of `countActions` and `handleAction`. */
  datatype EntityKind = OnProgram | OnComment | OnOther

  /** `countActions`: a missing bucket, an unknown entity kind or an unknown type all read as 0. */
  function CountActions(
    kind: Reaction, entityId: Id, entity: EntityKind,
    programCounts: map<Id, Tally>, commentCounts: map<Option<Id>, Tally>): nat
  {
    match entity
    case OnProgram => if entityId in programCounts then Count(programCounts[entityId], kind) else 0
    case OnComment => if Some(entityId) in commentCounts then Count(commentCounts[Some(entityId)], kind) else 0
    case OnOther => 0
  }

  /**
   * Against histograms built from `actions`, `countActions` answers the
   * number of actions of that type on that program or comment, and 0 for an
   * unrecognised type or entity kind.
   */
  lemma CountActionsCorrect(
    actions: seq<Action>, kind: Reaction, entityId: Id,
    programCounts: map<Id, Tally>, commentCounts: map<Option<Id>, Tally>)
    requires ProgramTallies(programCounts, actions)
    requires CommentTallies(commentCounts, actions)
    ensures Recognised(kind) ==>
      CountActions(kind, entityId, OnProgram, programCounts, commentCounts)
        == Occurrences(actions, ProgramBucket(entityId), kind)
    ensures Recognised(kind) ==>
      CountActions(kind, entityId, OnComment, programCounts, commentCounts)
        == Occurrences(actions, CommentBucket(Some(entityId)), kind)
    ensures CountActions(kind, entityId, OnOther, programCounts, commentCounts) == 0
    ensures !Recognised(kind) ==> forall e :: CountActions(kind, entityId, e, programCounts, commentCounts) == 0
  {
    if Recognised(kind) {
      CountOnProgram(actions, kind, entityId, programCounts, commentCounts);
      CountOnComment(actions, kind, entityId, programCounts, commentCounts);
    } else {
      forall e ensures CountActions(kind, entityId, e, programCounts, commentCounts) == 0 { }
    }
  }

  /** The program half of CountActionsCorrect: a program's entry, or 0 when it has none. */
  lemma CountOnProgram(
    actions: seq<Action>, kind: Reaction, entityId: Id,
    programCounts: map<Id, Tally>, commentCounts: map<Option<Id>, Tally>)
    requires ProgramTallies(programCounts, actions)
    requires Recognised(kind)
    ensures CountActions(kind, entityId, OnProgram, programCounts, commentCounts)
      == Occurrences(actions, ProgramBucket(entityId), kind)
  {
    if entityId in programCounts {
      assert Exact(programCounts[entityId], actions, ProgramBucket(entityId));
    } else {
      OccurrencesAbsent(actions, ProgramBucket(entityId), kind);
    }
  }

  /** The comment half of CountActionsCorrect. */
  lemma CountOnComment(
    actions: seq<Action>, kind: Reaction, entityId: Id,
    programCounts: map<Id, Tally>, commentCounts: map<Option<Id>, Tally>)
    requires CommentTallies(commentCounts, actions)
    requires Recognised(kind)
    ensures CountActions(kind, entityId, OnComment, programCounts, commentCounts)
      == Occurrences(actions, CommentBucket(Some(entityId)), kind)
  {
    if Some(entityId) in commentCounts {
      assert Exact(commentCounts[Some(entityId)], actions, CommentBucket(Some(entityId)));
    } else {
      OccurrencesAbsent(actions, CommentBucket(Some(entityId)), kind);
    }
  }

  /** A program action is never counted against a comment, whatever its `commentId`. */
  lemma ProgramTakesPrecedence(actions: seq<Action>, a: Action, k: Option<Id>, r: Reaction)
    requires IsTruthyId(a.programId)
    ensures Occurrences(actions + [a], CommentBucket(k), r) == Occurrences(actions, CommentBucket(k), r)
  {
    OccurrencesStep(actions, a, CommentBucket(k), r);
  }

  // ------------------------------------------------------------------ toggle

  /** The action `handleAction` looks for: this type, by this user, on this entity. */
  predicate Targets(a: Action, kind: Reaction, userId: Id, entityId: Id, entity: EntityKind) {
    a.kind == kind && a.authorId == userId
    && (if entity == OnProgram then a.programId == Some(entityId) else a.commentId == Some(entityId))
  }

  /** `actions.find(...)`: the first action that targets the entity. */
  function FindAction(actions: seq<Action>, kind: Reaction, userId: Id, entityId: Id, entity: EntityKind)
    : Option<Action>
  {
    Find(actions, (a: Action) => Targets(a, kind, userId, entityId, entity))
  }

  /** `action => action.id !== id`. */
  function OtherId(id: Id): Action -> bool {
    (a: Action) => a.id != id
  }

  /**
   * The local update `handleAction` makes to `actions`: the existing action
   * is removed by id when its deletion succeeds; otherwise the action the
   * backend created is appended when its creation succeeds.
   */
  function ToggleAction(
    actions: seq<Action>, kind: Reaction, userId: Id, entityId: Id, entity: EntityKind,
    deleted: bool, created: Option<Action>): seq<Action>
  {
    match FindAction(actions, kind, userId, entityId, entity)
    case Some(e) => if deleted then Filter(actions, OtherId(e.id)) else actions
    case None => if created.Some? then actions + [created.value] else actions
  }

  /** Toggling off removes every action with the found id and keeps all others in order. */
  lemma ToggleOffRemoves(
    actions: seq<Action>, kind: Reaction, userId: Id, entityId: Id, entity: EntityKind, created: Option<Action>)
    requires FindAction(actions, kind, userId, entityId, entity).Some?
    ensures var e := FindAction(actions, kind, userId, entityId, entity).value;
      var r := ToggleAction(actions, kind, userId, entityId, entity, true, created);
      r == Filter(actions, OtherId(e.id))
      && |r| < |actions|
      && (forall i :: 0 <= i < |r| ==> r[i].id != e.id)
      && (forall i :: 0 <= i < |actions| && actions[i].id != e.id ==> actions[i] in r)
  {
    var e := FindAction(actions, kind, userId, entityId, entity).value;
    FilterDropsOne(actions, e);
  }

  lemma {:induction false} FilterDropsOne(actions: seq<Action>, e: Action)
    requires e in actions
    ensures |Filter(actions, OtherId(e.id))| < |actions|
    decreases |actions|
  {
    var init := actions[..|actions| - 1];
    if actions[|actions| - 1] != e {
      assert e in init;
      FilterDropsOne(init, e);
    }
  }

  /**
   * Toggling on and then off again restores the list, provided the backend
   * gave the new action a fresh id and it does target the entity.
   */
  lemma ToggleTwice(
    actions: seq<Action>, kind: Reaction, userId: Id, entityId: Id, entity: EntityKind, created: Action)
    requires FindAction(actions, kind, userId, entityId, entity).None?
    requires Targets(created, kind, userId, entityId, entity)
    requires forall i :: 0 <= i < |actions| ==> actions[i].id != created.id
    ensures var once := ToggleAction(actions, kind, userId, entityId, entity, false, Some(created));
      once == actions + [created]
      && ToggleAction(once, kind, userId, entityId, entity, true, None) == actions
  {
    var once := actions + [created];
    FindAppended(actions, created, (a: Action) => Targets(a, kind, userId, entityId, entity));
    FilterKeepsAll(actions, OtherId(created.id));
    assert once[..|actions|] == actions;
  }

  // -------------------------------------------------------------------- view

  /** What the comment box sends: an update of the comment being edited, or a new comment. */
  datatype CommentRequest =
    | CreateComment(text: string, program: Id, parent: Option<Id>)
    | UpdateComment(commentId: Id, newText: string)

  /**
   * `handleAddComment`: while a comment is being edited it delegates to
   * `handleUpdateComment` and creates nothing; otherwise the new comment
   * replies to `replyTo` when there is one and is a root comment when not.
   */
  function CommentRequestFor(editCommentId: Option<Id>, replyTo: Option<Comment>, text: string, programId: Id)
    : (r: CommentRequest)
    ensures r.UpdateComment? <==> IsTruthyId(editCommentId)
    ensures r.UpdateComment? ==> r == UpdateComment(editCommentId.value, text)
    ensures r.CreateComment? ==> r.text == text && r.program == programId
    ensures r.CreateComment? ==> (r.parent.Some? <==> replyTo.Some?)
    ensures r.CreateComment? && replyTo.Some? ==> r.parent == Some(replyTo.value.id)
  {
    if IsTruthyId(editCommentId) then UpdateComment(editCommentId.value, text)
    else CreateComment(text, programId, if replyTo.Some? then Some(replyTo.value.id) else None)
  }

  /** What `handleAction` sends: the deletion of the existing action or the creation of a new one. */
  datatype ActionRequest =
    | DeleteAction(actionId: Id)
    | CreateAction(kind: Kind, authorId: Id, programId: Option<Id>, commentId: Option<Id>)

  /** The request for a toggle: `program_id` is set only for a program, `comment_id` only for a comment. */
  function ActionRequestFor(actions: seq<Action>, kind: Kind, userId: Id, entityId: Id, entity: EntityKind)
    : (r: ActionRequest)
    ensures r.DeleteAction? <==> FindAction(actions, kind, userId, entityId, entity).Some?
    ensures r.DeleteAction? ==> r.actionId == FindAction(actions, kind, userId, entityId, entity).value.id
    ensures r.DeleteAction? ==> exists a :: a in actions && a.id == r.actionId && Targets(a, kind, userId, entityId, entity)
    ensures r.CreateAction? ==> r.kind == kind && r.authorId == userId
    ensures r.CreateAction? ==> (r.programId.Some? <==> entity == OnProgram)
    ensures r.CreateAction? ==> (r.commentId.Some? <==> entity == OnComment)
    ensures r.CreateAction? ==> r.programId.Some? ==> r.programId.value == entityId
    ensures r.CreateAction? ==> r.commentId.Some? ==> r.commentId.value == entityId
  {
    match FindAction(actions, kind, userId, entityId, entity)
    case Some(e) => DeleteAction(e.id)
    case None =>
      CreateAction(kind, userId,
        if entity == OnProgram then Some(entityId) else None,
        if entity == OnComment then Some(entityId) else None)
  }

  /** The deletion sent and the local removal concern the same action: the first match. */
  lemma DeletionMatchesToggle(
    actions: seq<Action>, kind: Kind, userId: Id, entityId: Id, entity: EntityKind, created: Option<Action>)
    requires ActionRequestFor(actions, kind, userId, entityId, entity).DeleteAction?
    ensures var id := ActionRequestFor(actions, kind, userId, entityId, entity).actionId;
      ToggleAction(actions, kind, userId, entityId, entity, true, created) == Filter(actions, OtherId(id))
  {
  }

  /**
   * The state of the program detail card. Each REST call is a parameter:
   * `Option` data (`None` when the call throws) or an `ok` flag.
   */
  class ProgramDetailsView {
    const programId: Id
    const userId: Id
    var comments: Forest
    var newComment: string
    var replyTo: Option<Comment>
    var editCommentId: Option<Id>
    var actions: seq<Action>
    var programCounts: map<Id, Tally>
    var commentCounts: map<Option<Id>, Tally>
    var isMenuOpen: bool
    /** The action list the histograms were last built from. */
    ghost var counted: seq<Action>

    /** The histograms always count the last fetched action list. */
    ghost predicate Valid()
      reads this
    {
      ProgramTallies(programCounts, counted) && CommentTallies(commentCounts, counted)
    }

    constructor (programId: Id, userId: Id)
      ensures Valid()
      ensures this.programId == programId && this.userId == userId
      ensures comments == Forest([], map[], map[]) && actions == [] && counted == []
      ensures newComment == "" && replyTo == None && editCommentId == None && !isMenuOpen
    {
      this.programId := programId;
      this.userId := userId;
      comments := Forest([], map[], map[]);
      newComment := "";
      replyTo := None;
      editCommentId := None;
      actions := [];
      programCounts := map[];
      commentCounts := map[];
      isMenuOpen := false;
      counted := [];
    }

    /** `fetchComments`: the forest of this program's comments, or no change when the call fails. */
    method FetchComments(response: Option<seq<Comment>>)
      modifies this`comments
      ensures response.None? ==> comments == old(comments)
      ensures response.Some? ==> ForestOf(comments, ProgramComments(response.value, programId))
    {
      if response.Some? {
        comments := BuildCommentsTree(ProgramComments(response.value, programId));
      }
    }

    /** `fetchActions`: stores the list and rebuilds both histograms from it. */
    method FetchActions(response: Option<seq<Action>>)
      requires Valid()
      modifies this`actions, this`programCounts, this`commentCounts, this`counted
      ensures Valid()
      ensures response.None? ==> actions == old(actions) && counted == old(counted)
      ensures response.Some? ==> actions == response.value && counted == response.value
    {
      if response.Some? {
        actions := response.value;
        programCounts, commentCounts := UpdateActionCounts(response.value);
        counted := response.value;
      }
    }

    /**
     * `handleAddComment` and `handleUpdateComment`. When the request
     * succeeds the comments are fetched again and the box is emptied; an
     * update also ends the editing, a creation also ends the reply.
     */
    method AddComment(ok: bool, refetch: Option<seq<Comment>>) returns (request: CommentRequest)
      modifies this`comments, this`newComment, this`replyTo, this`editCommentId
      ensures request == CommentRequestFor(old(editCommentId), old(replyTo), old(newComment), programId)
      ensures !ok ==> (comments == old(comments) && newComment == old(newComment)
                       && replyTo == old(replyTo) && editCommentId == old(editCommentId))
      ensures ok ==> newComment == ""
      ensures ok && request.UpdateComment? ==> editCommentId == None && replyTo == old(replyTo)
      ensures ok && request.CreateComment? ==> replyTo == None && editCommentId == old(editCommentId)
      ensures ok && refetch.None? ==> comments == old(comments)
      ensures ok && refetch.Some? ==> ForestOf(comments, ProgramComments(refetch.value, programId))
    {
      request := CommentRequestFor(editCommentId, replyTo, newComment, programId);
      if ok {
        FetchComments(refetch);
        newComment := "";
        if request.UpdateComment? {
          editCommentId := None;
        } else {
          replyTo := None;
        }
      }
    }

    /** `handleReply`: once the author is known, the box is prefilled with `<replied_to> @First Last: `. */
    method Reply(c: Comment, author: Option<User>, repliedTo: string)
      modifies this`replyTo, this`newComment
      ensures author.None? ==> replyTo == old(replyTo) && newComment == old(newComment)
      ensures author.Some? ==> replyTo == Some(c)
      ensures author.Some? ==> newComment == repliedTo + " @" + author.value.firstName + " " + author.value.lastName + ": "
    {
      if author.Some? {
        replyTo := Some(c);
        newComment := repliedTo + " @" + author.value.firstName + " " + author.value.lastName + ": ";
      }
    }

    /** `handleEditComment`: the box takes the comment's text and remembers which comment it edits. */
    method EditComment(c: Comment)
      modifies this`newComment, this`editCommentId
      ensures newComment == c.text && editCommentId == Some(c.id)
    {
      newComment := c.text;
      editCommentId := Some(c.id);
    }

    /** `handleDeleteComment`: on success the comments are fetched again. */
    method DeleteComment(ok: bool, refetch: Option<seq<Comment>>)
      modifies this`comments
      ensures !ok || refetch.None? ==> comments == old(comments)
      ensures ok && refetch.Some? ==> ForestOf(comments, ProgramComments(refetch.value, programId))
    {
      if ok {
        FetchComments(refetch);
      }
    }

    /**
     * `handleAction`: toggles this user's reaction locally, then fetches the
     * actions again, which replaces the list and rebuilds the histograms.
     */
    method HandleAction(
      kind: Kind, entityId: Id, entity: EntityKind,
      deleted: bool, created: Option<Action>, refetch: Option<seq<Action>>)
      returns (request: ActionRequest)
      requires Valid()
      modifies this`actions, this`programCounts, this`commentCounts, this`counted
      ensures Valid()
      ensures request == ActionRequestFor(old(actions), kind, userId, entityId, entity)
      ensures refetch.None? ==>
        actions == ToggleAction(old(actions), kind, userId, entityId, entity, deleted, created)
        && counted == old(counted)
      ensures refetch.Some? ==> actions == refetch.value && counted == refetch.value
    {
      request := ActionRequestFor(actions, kind, userId, entityId, entity);
      actions := ToggleAction(actions, kind, userId, entityId, entity, deleted, created);
      FetchActions(refetch);
    }

    /** The ellipsis on the author's own program flips the menu. */
    method ToggleMenu()
      modifies this`isMenuOpen
      ensures isMenuOpen == !old(isMenuOpen)
    {
      isMenuOpen := !isMenuOpen;
    }
  }
}
