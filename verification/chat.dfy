/**
 * The chat page: the friends and groups of the signed-in user, the
 * conversation with the one selected, the message box, the sidebar search
 * and the group member panel.
 */
module Chat {
  import opened Wrappers
  import opened Text
  import opened Seqs
  import opened Entities

  // ---------------------------------------------------------------- friends

  /** `f` is an accepted friendship through which `x` is a friend of `me`. */
  predicate IsFriendVia(f: Friendship, me: Id, x: Id) {
    f.status == "accepted"
    && ((f.user == me && f.friend == x) || (f.user != me && f.friend == me && f.user == x))
  }

  /** What the `flatMap` callback gives for one accepted friendship: the other party, or nothing. */
  function OtherParty(f: Friendship, me: Id): seq<Id> {
    if f.user == me then [f.friend] else if f.friend == me then [f.user] else []
  }

  /**
   * `fetchFriends`: the other party of every accepted friendship `me` is a
   * side of, in friendship order.
   */
  function FriendIds(friendships: seq<Friendship>, me: Id): (ids: seq<Id>)
    ensures forall x :: x in ids <==> exists i :: 0 <= i < |friendships| && IsFriendVia(friendships[i], me, x)
    decreases |friendships|
  {
    if friendships == [] then []
    else
      var init, f := friendships[..|friendships| - 1], friendships[|friendships| - 1];
      assert forall i :: 0 <= i < |init| ==> init[i] == friendships[i];
      FriendIds(init, me) + (if f.status == "accepted" then OtherParty(f, me) else [])
  }

  /** A friendship `me` is not a side of adds no friend. */
  lemma FriendIdsIgnoresOthers(friendships: seq<Friendship>, f: Friendship, me: Id)
    requires f.user != me && f.friend != me
    ensures FriendIds(friendships + [f], me) == FriendIds(friendships, me)
  {
    assert (friendships + [f])[..|friendships|] == friendships;
  }

  /** `allUsers.filter(u => acceptedFriends.includes(u.id))`: the friends, in user order. */
  function Friends(users: seq<User>, ids: seq<Id>): (r: seq<User>)
    ensures forall u :: u in r <==> u in users && u.id in ids
  {
    Filter(users, (u: User) => u.id in ids)
  }

  /** `fetchGroups`: the groups `me` belongs to. */
  function UserGroups(groups: seq<Group>, me: Id): (r: seq<Group>)
    ensures forall g :: g in r <==> g in groups && me in g.members
  {
    Filter(groups, (g: Group) => me in g.members)
  }

  // ------------------------------------------------------------ conversations

  function Timestamp(m: Message): int {
    m.timestamp
  }

  /** `m` was sent from `me` to `friend` or from `friend` to `me`. */
  predicate Between(m: Message, me: Id, friend: Id) {
    (m.receiver == Some(friend) && m.sender == me) || (m.sender == friend && m.receiver == Some(me))
  }

  /** `fetchMessagesForFriend`: the direct messages between the two, oldest first. */
  function DirectMessages(messages: seq<Message>, me: Id, friend: Id): seq<Message> {
    SortBy(Filter(messages, (m: Message) => Between(m, me, friend)), Timestamp)
  }

  /** `fetchMessagesForGroup`: the messages posted to the group, oldest first. */
  function GroupMessages(messages: seq<Message>, groupId: Id): seq<Message> {
    SortBy(Filter(messages, (m: Message) => m.groupId == Some(groupId)), Timestamp)
  }

  /** Sorting neither adds nor drops a message. */
  lemma SortedFilterMembers(messages: seq<Message>, p: Message -> bool, m: Message)
    ensures m in SortBy(Filter(messages, p), Timestamp) <==> m in messages && p(m)
  {
    var f := Filter(messages, p);
    assert m in SortBy(f, Timestamp) <==> m in multiset(SortBy(f, Timestamp));
    if m in messages && p(m) {
      var i :| 0 <= i < |messages| && messages[i] == m;
    }
  }

  /**
   * The conversation with a friend is exactly the messages between the two,
   * in ascending timestamp order, with messages of equal timestamp in server
   * order.
   */
  lemma DirectMessagesCorrect(messages: seq<Message>, me: Id, friend: Id, t: int)
    ensures SortedBy(DirectMessages(messages, me, friend), Timestamp)
    ensures forall m :: m in DirectMessages(messages, me, friend) <==> m in messages && Between(m, me, friend)
    ensures Filter(DirectMessages(messages, me, friend), KeyIs(Timestamp, t))
         == Filter(Filter(messages, (m: Message) => Between(m, me, friend)), KeyIs(Timestamp, t))
  {
    forall m ensures m in DirectMessages(messages, me, friend) <==> m in messages && Between(m, me, friend) {
      SortedFilterMembers(messages, (m: Message) => Between(m, me, friend), m);
    }
    SortByStable(Filter(messages, (m: Message) => Between(m, me, friend)), Timestamp, t);
  }

  /** The group conversation is exactly the group's messages, in ascending timestamp order, stable. */
  lemma GroupMessagesCorrect(messages: seq<Message>, groupId: Id, t: int)
    ensures SortedBy(GroupMessages(messages, groupId), Timestamp)
    ensures forall m :: m in GroupMessages(messages, groupId) <==> m in messages && m.groupId == Some(groupId)
    ensures Filter(GroupMessages(messages, groupId), KeyIs(Timestamp, t))
         == Filter(Filter(messages, (m: Message) => m.groupId == Some(groupId)), KeyIs(Timestamp, t))
  {
    forall m ensures m in GroupMessages(messages, groupId) <==> m in messages && m.groupId == Some(groupId) {
      SortedFilterMembers(messages, (m: Message) => m.groupId == Some(groupId), m);
    }
    SortByStable(Filter(messages, (m: Message) => m.groupId == Some(groupId)), Timestamp, t);
  }

  // ----------------------------------------------------------------- sending

  /** The body of `createMessage`. */
  datatype Outgoing = Outgoing(content: string, sender: Id, receiver: Option<Id>, groupId: Option<Id>)

  /**
   * `handleSendMessage`: nothing is sent while the trimmed text is empty;
   * otherwise the untrimmed text goes to the selected friend and/or group.
   */
  function OutgoingMessage(text: string, me: Id, selectedFriend: Option<User>, selectedGroup: Option<Group>)
    : (r: Option<Outgoing>)
    ensures r.None? <==> forall i :: 0 <= i < |text| ==> IsWhitespace(text[i])
    ensures r.Some? ==> r.value.content == text && r.value.sender == me
    ensures r.Some? ==> (r.value.receiver.Some? <==> selectedFriend.Some?)
    ensures r.Some? ==> (r.value.groupId.Some? <==> selectedGroup.Some?)
    ensures r.Some? && selectedFriend.Some? ==> r.value.receiver.value == selectedFriend.value.id
    ensures r.Some? && selectedGroup.Some? ==> r.value.groupId.value == selectedGroup.value.id
  {
    TrimEmptyIffBlank(text);
    if Trim(text) == [] then None
    else
      Some(Outgoing(text, me,
        if selectedFriend.Some? then Some(selectedFriend.value.id) else None,
        if selectedGroup.Some? then Some(selectedGroup.value.id) else None))
  }

  /**
   * The body of `updateMessage`: the message found by id with its content
   * replaced, or, when no message has that id, an object holding the content
   * alone (spreading `undefined` adds no field).
   */
  datatype MessageUpdate = Edited(message: Message) | ContentOnly(content: string)

  function UpdatePayload(messages: seq<Message>, messageId: Id, newContent: string): (u: MessageUpdate)
    ensures u.ContentOnly? <==> forall i :: 0 <= i < |messages| ==> messages[i].id != messageId
    ensures u.ContentOnly? ==> u.content == newContent
    ensures u.Edited? ==> u.message.id == messageId && u.message.content == newContent
    ensures u.Edited? ==> exists m :: m in messages && u.message == m.(content := newContent)
  {
    match Find(messages, (m: Message) => m.id == messageId)
    case Some(m) => Edited(m.(content := newContent))
    case None => ContentOnly(newContent)
  }

  // ------------------------------------------------------------------ search

  /** A non-empty first name, last name or username contains the term, ignoring case. */
  predicate FriendMatches(f: User, term: string) {
    (|f.firstName| > 0 && ContainsIgnoringCase(f.firstName, term))
    || (|f.lastName| > 0 && ContainsIgnoringCase(f.lastName, term))
    || (|f.username| > 0 && ContainsIgnoringCase(f.username, term))
  }

  /** The friend half of `handleSearchChange`: a blank term shows every friend. */
  function SearchFriends(friends: seq<User>, value: string): (r: seq<User>)
    ensures Trim(value) == [] ==> r == friends
    ensures forall u :: u in r <==> u in friends && (Trim(value) == [] || FriendMatches(u, value))
  {
    if Trim(value) != [] then Filter(friends, (u: User) => FriendMatches(u, value)) else friends
  }

  /** The group half of `handleSearchChange`: a blank term shows every group. */
  function SearchGroups(groups: seq<Group>, value: string): (r: seq<Group>)
    ensures Trim(value) == [] ==> r == groups
    ensures forall g :: g in r <==> g in groups && (Trim(value) == [] || ContainsIgnoringCase(g.name, value))
  {
    if Trim(value) != [] then Filter(groups, (g: Group) => ContainsIgnoringCase(g.name, value)) else groups
  }

  // ----------------------------------------------------------------- members

  /** `users.find(user => user.id === id)`. */
  function FindUser(users: seq<User>, id: Id): (r: Option<User>)
    ensures r.Some? ==> r.value in users && r.value.id == id
    ensures r.None? <==> forall i :: 0 <= i < |users| ==> users[i].id != id
  {
    var r := Find(users, (u: User) => u.id == id);
    assert r.Some? ==> r.value in users by {
      if r.Some? {
        var i :| 0 <= i < |users| && users[i] == r.value && users[i].id == id
                 && forall j :: 0 <= j < i ==> users[j].id != id;
      }
    }
    r
  }

  /** The member shown for `id`: a known user other than `me` whose first name matches the search. */
  predicate ShowsMember(id: Id, me: Id, users: seq<User>, term: string) {
    id != me && FindUser(users, id).Some? && ContainsIgnoringCase(FindUser(users, id).value.firstName, term)
  }

  /**
   * `filteredMembers` for the selected group's `members`: every member id
   * other than `me`, mapped to the first user with that id, kept when such a
   * user exists and their first name contains the member search.
   */
  function ShownMembers(members: seq<Id>, me: Id, users: seq<User>, term: string): (r: seq<User>)
    ensures |r| <= |members|
    ensures forall u :: u in r ==> u in users && u.id in members && u.id != me && ContainsIgnoringCase(u.firstName, term)
    ensures forall i :: 0 <= i < |members| && ShowsMember(members[i], me, users, term) ==> FindUser(users, members[i]).value in r
    decreases |members|
  {
    if members == [] then []
    else
      var init, id := members[..|members| - 1], members[|members| - 1];
      assert forall i :: 0 <= i < |init| ==> init[i] == members[i];
      ShownMembers(init, me, users, term) + (if ShowsMember(id, me, users, term) then [FindUser(users, id).value] else [])
  }

  /** `filteredMembers`: no selected group shows no members. */
  function FilteredMembers(selectedGroup: Option<Group>, me: Id, users: seq<User>, term: string): (r: seq<User>)
    ensures selectedGroup.None? ==> r == []
    ensures forall u :: u in r ==> u.id != me && selectedGroup.Some? && u.id in selectedGroup.value.members
  {
    if selectedGroup.Some? then ShownMembers(selectedGroup.value.members, me, users, term) else []
  }

  /** `nonMembers`: the users outside the selected group; every user when none is selected. */
  function NonMembers(users: seq<User>, selectedGroup: Option<Group>): (r: seq<User>)
    ensures selectedGroup.None? ==> r == users
    ensures forall u :: u in r <==> u in users && (selectedGroup.None? || u.id !in selectedGroup.value.members)
  {
    var keep := (u: User) => !(selectedGroup.Some? && u.id in selectedGroup.value.members);
    assert selectedGroup.None? ==> Filter(users, keep) == users by {
      if selectedGroup.None? {
        FilterKeepsAll(users, keep);
      }
    }
    Filter(users, keep)
  }

  /** `handleAddUserToGroup`'s new record: the id appended, everything else as it was. */
  function WithMember(g: Group, userId: Id): Group {
    g.(members := g.members + [userId])
  }

  /** `handleRemoveUserFromGroup`'s new record: every occurrence of the id removed, in order, everything else kept. */
  function WithoutMember(g: Group, userId: Id): (h: Group)
    ensures h.id == g.id && h.name == g.name
    ensures userId !in h.members
    ensures forall x :: x != userId ==> (x in h.members <==> x in g.members)
  {
    g.(members := Filter(g.members, (x: Id) => x != userId))
  }

  /** Adding a member and then removing them leaves the group as removing alone would. */
  lemma RemoveUndoesAdd(g: Group, userId: Id)
    ensures WithMember(g, userId).members == g.members + [userId]
    ensures WithoutMember(WithMember(g, userId), userId) == WithoutMember(g, userId)
  {
    FilterAppend(g.members, [userId], (x: Id) => x != userId);
    assert Filter([userId], (x: Id) => x != userId) == [] by {
      assert [userId][..0] == [];
    }
  }

  /** Removing a member who is not in the group changes nothing. */
  lemma RemoveAbsent(g: Group, userId: Id)
    requires userId !in g.members
    ensures WithoutMember(g, userId) == g
  {
    FilterKeepsAll(g.members, (x: Id) => x != userId);
  }

  // ------------------------------------------------------------------ initials

  /** `name?.charAt(0) || ''`. */
  function FirstChar(name: Option<string>): string {
    if name.Some? && |name.value| > 0 then [name.value[0]] else ""
  }

  /** `getInitials`: the first letters of the first and last names, skipping an absent or empty name. */
  function Initials(firstName: Option<string>, lastName: Option<string>): (r: string)
    ensures |r| <= 2
    ensures |r| == |FirstChar(firstName)| + |FirstChar(lastName)|
    ensures r == "" <==> FirstChar(firstName) == "" && FirstChar(lastName) == ""
    ensures firstName.Some? && |firstName.value| > 0 ==> r[0] == firstName.value[0]
    ensures lastName.Some? && |lastName.value| > 0 ==> r[|r| - 1] == lastName.value[0]
  {
    FirstChar(firstName) + FirstChar(lastName)
  }

  /**
   * The messages shown once the conversation is loaded again: the direct
   * messages with the selected friend, else the selected group's messages;
   * with no response (the fetch threw, or none was made) or no selection,
   * the messages already shown stay.
   */
  function Reloaded(shown: seq<Message>, response: Option<seq<Message>>, me: Id,
                    selectedFriend: Option<User>, selectedGroup: Option<Group>): seq<Message>
  {
    if response.None? then shown
    else if selectedFriend.Some? then DirectMessages(response.value, me, selectedFriend.value.id)
    else if selectedGroup.Some? then GroupMessages(response.value, selectedGroup.value.id)
    else shown
  }

  // -------------------------------------------------------------------- view

  /**
   * The state of the chat page. Each REST call is a parameter: `Option`
   * data (`None` when the call throws) or an `ok` flag.
   */
  class ChatView {
    const me: Id
    var messages: seq<Message>
    var newMessage: string
    var friends: seq<User>
    var filteredFriends: seq<User>
    var groups: seq<Group>
    var filteredGroups: seq<Group>
    var selectedFriend: Option<User>
    var selectedGroup: Option<Group>
    var searchText: string
    var showMembers: bool
    var users: seq<User>
    var memberSearchText: string
    var editingMessage: Option<Message>
    var messageMenuOpen: Option<Id>

    /** At most one conversation is selected: a friend or a group. */
    ghost predicate Valid()
      reads this`selectedFriend, this`selectedGroup
    {
      !(selectedFriend.Some? && selectedGroup.Some?)
    }

    constructor (me: Id)
      ensures Valid()
      ensures this.me == me && selectedFriend == None && selectedGroup == None
      ensures messages == [] && friends == [] && groups == [] && users == []
      ensures messageMenuOpen == None && editingMessage == None && !showMembers
    {
      this.me := me;
      messages := [];
      newMessage := "";
      friends := [];
      filteredFriends := [];
      groups := [];
      filteredGroups := [];
      selectedFriend := None;
      selectedGroup := None;
      searchText := "";
      showMembers := false;
      users := [];
      memberSearchText := "";
      editingMessage := None;
      messageMenuOpen := None;
    }

    /** `fetchFriends`: both lists are needed; either call failing leaves the lists as they were. */
    method FetchFriends(allUsers: Option<seq<User>>, friendships: Option<seq<Friendship>>)
      modifies this`friends, this`filteredFriends
      ensures allUsers.None? || friendships.None? ==>
        friends == old(friends) && filteredFriends == old(filteredFriends)
      ensures allUsers.Some? && friendships.Some? ==>
        friends == Friends(allUsers.value, FriendIds(friendships.value, me)) && filteredFriends == friends
    {
      if allUsers.Some? && friendships.Some? {
        friends := Friends(allUsers.value, FriendIds(friendships.value, me));
        filteredFriends := friends;
      }
    }

    /** `fetchGroups`. */
    method FetchGroups(response: Option<seq<Group>>)
      modifies this`groups, this`filteredGroups
      ensures response.None? ==> groups == old(groups) && filteredGroups == old(filteredGroups)
      ensures response.Some? ==> groups == UserGroups(response.value, me) && filteredGroups == groups
    {
      if response.Some? {
        groups := UserGroups(response.value, me);
        filteredGroups := groups;
      }
    }

    /** `fetchUsers`. */
    method FetchUsers(response: Option<seq<User>>)
      modifies this`users
      ensures users == if response.Some? then response.value else old(users)
    {
      if response.Some? {
        users := response.value;
      }
    }

    /** `fetchMessagesForFriend` or `fetchMessagesForGroup`, whichever conversation is selected. */
    method ShowConversation(response: Option<seq<Message>>)
      modifies this`messages
      ensures messages == Reloaded(old(messages), response, me, selectedFriend, selectedGroup)
      ensures response.None? || (selectedFriend.None? && selectedGroup.None?) ==> messages == old(messages)
      ensures response.Some? && selectedFriend.Some? ==>
        messages == DirectMessages(response.value, me, selectedFriend.value.id)
      ensures response.Some? && selectedFriend.None? && selectedGroup.Some? ==>
        messages == GroupMessages(response.value, selectedGroup.value.id)
    {
      if response.Some? {
        if selectedFriend.Some? {
          messages := DirectMessages(response.value, me, selectedFriend.value.id);
        } else if selectedGroup.Some? {
          messages := GroupMessages(response.value, selectedGroup.value.id);
        }
      }
    }

    /**
     * `handleSelectFriend`, then the effect that loads the conversation.
     * `response` is the answer of the fetch the effect at lines 37-43 of the
     * page starts; it is `None` when that fetch throws, and also when the
     * record clicked is the one already selected, since the effect then does
     * not run.
     */
    method SelectFriend(friend: User, response: Option<seq<Message>>)
      modifies this`selectedFriend, this`selectedGroup, this`messages
      ensures Valid()
      ensures selectedFriend == Some(friend) && selectedGroup == None
      ensures response.None? ==> messages == old(messages)
      ensures response.Some? ==> messages == DirectMessages(response.value, me, friend.id)
    {
      selectedFriend := Some(friend);
      selectedGroup := None;
      ShowConversation(response);
    }

    /**
     * `handleSelectGroup`, then the effect that loads the conversation.
     * `response` is the answer of the fetch the effect at lines 37-43 of the
     * page starts; it is `None` when that fetch throws, and also when the
     * record clicked is the one already selected, since the effect then does
     * not run.
     */
    method SelectGroup(group: Group, response: Option<seq<Message>>)
      modifies this`selectedFriend, this`selectedGroup, this`messages
      ensures Valid()
      ensures selectedGroup == Some(group) && selectedFriend == None
      ensures response.None? ==> messages == old(messages)
      ensures response.Some? ==> messages == GroupMessages(response.value, group.id)
    {
      selectedGroup := Some(group);
      selectedFriend := None;
      ShowConversation(response);
    }

    /** `handleSendMessage`: on success the conversation is reloaded and the box emptied. */
    method SendMessage(ok: bool, refetch: Option<seq<Message>>) returns (request: Option<Outgoing>)
      requires Valid()
      modifies this`messages, this`newMessage
      ensures request == OutgoingMessage(old(newMessage), me, selectedFriend, selectedGroup)
      ensures request.None? || !ok ==> messages == old(messages) && newMessage == old(newMessage)
      ensures request.Some? && ok ==> newMessage == ""
      ensures request.Some? && ok ==> messages == Reloaded(old(messages), refetch, me, selectedFriend, selectedGroup)
      ensures request.Some? && ok && refetch.Some? && selectedFriend.Some? ==>
        messages == DirectMessages(refetch.value, me, selectedFriend.value.id)
      ensures request.Some? && ok && refetch.Some? && selectedGroup.Some? ==>
        messages == GroupMessages(refetch.value, selectedGroup.value.id)
    {
      request := OutgoingMessage(newMessage, me, selectedFriend, selectedGroup);
      if request.Some? && ok {
        ShowConversation(refetch);
        newMessage := "";
      }
    }

    /** `handleEditMessage`: the box takes the message's content. */
    method EditMessage(m: Message)
      modifies this`editingMessage, this`newMessage
      ensures editingMessage == Some(m) && newMessage == m.content
    {
      editingMessage := Some(m);
      newMessage := m.content;
    }

    /** `handleUpdateMessage`: on success the conversation is reloaded, the editing ends and the box is emptied. */
    method UpdateMessage(messageId: Id, newContent: string, ok: bool, refetch: Option<seq<Message>>)
      returns (request: MessageUpdate)
      modifies this`messages, this`editingMessage, this`newMessage
      ensures request == UpdatePayload(old(messages), messageId, newContent)
      ensures !ok ==> messages == old(messages) && editingMessage == old(editingMessage) && newMessage == old(newMessage)
      ensures ok ==> editingMessage == None && newMessage == ""
      ensures ok ==> messages == Reloaded(old(messages), refetch, me, selectedFriend, selectedGroup)
    {
      request := UpdatePayload(messages, messageId, newContent);
      if ok {
        ShowConversation(refetch);
        editingMessage := None;
        newMessage := "";
      }
    }

    /** `handleDeleteMessage`: on success the conversation is reloaded. */
    method DeleteMessage(ok: bool, refetch: Option<seq<Message>>)
      modifies this`messages
      ensures !ok || refetch.None? ==> messages == old(messages)
      ensures ok ==> messages == Reloaded(old(messages), refetch, me, selectedFriend, selectedGroup)
    {
      if ok {
        ShowConversation(refetch);
      }
    }

    /** `handleSearchChange`. */
    method SearchChange(value: string)
      modifies this`searchText, this`filteredFriends, this`filteredGroups
      ensures searchText == value
      ensures filteredFriends == SearchFriends(friends, value)
      ensures filteredGroups == SearchGroups(groups, value)
    {
      searchText := value;
      filteredFriends := SearchFriends(friends, value);
      filteredGroups := SearchGroups(groups, value);
    }

    /** `toggleMembers`. */
    method ToggleMembers()
      modifies this`showMembers
      ensures showMembers == !old(showMembers)
    {
      showMembers := !showMembers;
    }

    /**
     * `handleAddUserToGroup`: sends the selected group with the id appended,
     * then reloads the groups and hides the panel. The selected group keeps
     * its old record. A failed update rejects before anything changes.
     */
    method AddUserToGroup(userId: Id, ok: bool, refetch: Option<seq<Group>>) returns (request: Option<Group>)
      modifies this`groups, this`filteredGroups, this`showMembers
      ensures request == if selectedGroup.Some? then Some(WithMember(selectedGroup.value, userId)) else None
      ensures request.None? || !ok ==> showMembers == old(showMembers)
      ensures request.None? || !ok || refetch.None? ==> groups == old(groups) && filteredGroups == old(filteredGroups)
      ensures request.Some? && ok ==> !showMembers
      ensures request.Some? && ok && refetch.Some? ==>
        groups == UserGroups(refetch.value, me) && filteredGroups == groups
    {
      request := None;
      if selectedGroup.Some? {
        request := Some(WithMember(selectedGroup.value, userId));
        if ok {
          FetchGroups(refetch);
          showMembers := false;
        }
      }
    }

    /** `handleRemoveUserFromGroup`: as adding, with every occurrence of the id removed. */
    method RemoveUserFromGroup(userId: Id, ok: bool, refetch: Option<seq<Group>>) returns (request: Option<Group>)
      modifies this`groups, this`filteredGroups, this`showMembers
      ensures request == if selectedGroup.Some? then Some(WithoutMember(selectedGroup.value, userId)) else None
      ensures request.None? || !ok ==> showMembers == old(showMembers)
      ensures request.None? || !ok || refetch.None? ==> groups == old(groups) && filteredGroups == old(filteredGroups)
      ensures request.Some? && ok ==> !showMembers
      ensures request.Some? && ok && refetch.Some? ==>
        groups == UserGroups(refetch.value, me) && filteredGroups == groups
    {
      request := None;
      if selectedGroup.Some? {
        request := Some(WithoutMember(selectedGroup.value, userId));
        if ok {
          FetchGroups(refetch);
          showMembers := false;
        }
      }
    }

    /** `toggleMessageMenu`: opens the menu of one message, or closes it when it is already open. */
    method ToggleMessageMenu(messageId: Id)
      modifies this`messageMenuOpen
      ensures messageMenuOpen == Some(messageId) <==> old(messageMenuOpen) != Some(messageId)
      ensures messageMenuOpen.Some? ==> messageMenuOpen == Some(messageId)
    {
      messageMenuOpen := if messageMenuOpen == Some(messageId) then None else Some(messageId);
    }
  }
}
