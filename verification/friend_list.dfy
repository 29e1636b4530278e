/**
 * The "add friends" panel: every other user, each with an add button or,
 * once a request has been sent, a disabled "sent" button.
 */
module FriendList {
  import opened Wrappers
  import opened Seqs
  import opened Entities

  const FetchUsersError := "There was an error fetching the users!"

  /** `fetchUsers`'s filter: every user but `me`, in server order. */
  function OtherUsers(all: seq<User>, me: Id): (r: seq<User>)
    ensures forall u :: u in r <==> u in all && u.id != me
    ensures forall i :: 0 <= i < |r| ==> r[i].id != me
  {
    Filter(all, (u: User) => u.id != me)
  }

  /** Listing the users keeps their relative order. */
  lemma OtherUsersKeepsOrder(a: seq<User>, b: seq<User>, me: Id)
    ensures OtherUsers(a + b, me) == OtherUsers(a, me) + OtherUsers(b, me)
  {
    FilterAppend(a, b, (u: User) => u.id != me);
  }

  function FriendOf(f: Friendship): Id {
    f.friend
  }

  /** `fetchRequests`: the `friend` of every request whose status is exactly `'sent'`, in order. */
  function SentTo(requests: seq<Friendship>): (r: seq<Id>)
    ensures |r| <= |requests|
    ensures forall x :: x in r <==> exists f :: f in requests && f.status == "sent" && f.friend == x
  {
    var sent := Filter(requests, (f: Friendship) => f.status == "sent");
    var r := Map(sent, FriendOf);
    assert forall x :: x in r ==> exists f :: f in requests && f.status == "sent" && f.friend == x by {
      forall x | x in r ensures exists f :: f in requests && f.status == "sent" && f.friend == x {
        var i :| 0 <= i < |r| && r[i] == x;
        assert sent[i] in requests;
      }
    }
    assert forall f :: f in requests && f.status == "sent" ==> f.friend in r by {
      forall f | f in requests && f.status == "sent" ensures f.friend in r {
        var j :| 0 <= j < |requests| && requests[j] == f;
        var i :| 0 <= i < |sent| && sent[i] == f;
        assert r[i] == f.friend;
      }
    }
    r
  }

  /** The button a row shows. */
  datatype FriendButton = SentButton | AddButton

  /** The disabled "sent" button exactly for the users a request went to. */
  function ButtonFor(sentRequests: seq<Id>, userId: Id): (b: FriendButton)
    ensures b == SentButton <==> userId in sentRequests
  {
    if userId in sentRequests then SentButton else AddButton
  }

  class FriendListView {
    const me: Id
    var users: seq<User>
    var sentRequests: seq<Id>
    var loading: bool
    var error: Option<string>

    /** The list never shows the signed-in user. */
    ghost predicate Valid()
      reads this`users
    {
      forall i :: 0 <= i < |users| ==> users[i].id != me
    }

    constructor (me: Id)
      ensures Valid()
      ensures this.me == me && users == [] && sentRequests == [] && loading && error == None
    {
      this.me := me;
      users := [];
      sentRequests := [];
      loading := true;
      error := None;
    }

    /** `fetchUsers`: loading ends either way; the error is set only when the call fails. */
    method FetchUsers(response: Option<seq<User>>)
      requires Valid()
      modifies this`users, this`loading, this`error
      ensures Valid()
      ensures !loading
      ensures response.Some? ==> users == OtherUsers(response.value, me) && error == old(error)
      ensures response.None? ==> users == old(users) && error == Some(FetchUsersError)
    {
      if response.Some? {
        users := OtherUsers(response.value, me);
      } else {
        error := Some(FetchUsersError);
      }
      loading := false;
    }

    /** `fetchRequests`. */
    method FetchRequests(response: Option<seq<Friendship>>)
      modifies this`sentRequests
      ensures sentRequests == if response.Some? then SentTo(response.value) else old(sentRequests)
    {
      if response.Some? {
        sentRequests := SentTo(response.value);
      }
    }

    /**
     * `handleAddFriend`: a request that goes through appends the id, which
     * turns that row's button into "sent" and leaves every other row as it was.
     */
    method AddFriend(friendId: Id, ok: bool)
      modifies this`sentRequests
      ensures sentRequests == if ok then old(sentRequests) + [friendId] else old(sentRequests)
      ensures ok ==> ButtonFor(sentRequests, friendId) == SentButton
      ensures forall x :: x != friendId ==> ButtonFor(sentRequests, x) == ButtonFor(old(sentRequests), x)
    {
      if ok {
        sentRequests := sentRequests + [friendId];
      }
    }
  }
}
