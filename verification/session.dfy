/**
  The session state the application context keeps (context/AppContext.tsx):
  the signed-in user and the stored user list, liked profiles, group chats and
  private chats. Every operation is a pure transition from the old list to
  the new one; the clock reading `Date.now()` is the parameter `now`.
 */
module Session {
  import opened Options
  import opened Seqs
  import opened Types

  // ---------------------------------------------------------------------
  // The friend list

  /** The names list after adding `name`: appended at the end when absent. */
  function AddFriendTo(friends: seq<string>, name: string): (r: seq<string>)
    ensures forall x :: x in r <==> x in friends || x == name
    ensures |friends| <= |r| <= |friends| + 1
    ensures r[..|friends|] == friends
    ensures name !in friends ==> r[|friends|] == name
    ensures NoDup(friends) ==> NoDup(r)
  {
    if name in friends then friends else friends + [name]
  }

  /** The names list after removing `name`: every occurrence goes, the rest
      keep their order. */
  function RemoveFriendFrom(friends: seq<string>, name: string): (r: seq<string>)
    ensures forall x :: x in r <==> x in friends && x != name
    ensures forall x :: multiset(r)[x] == if x == name then 0 else multiset(friends)[x]
    ensures name !in friends ==> r == friends
  {
    var keep := (f: string) => f != name;
    FilterMembers(friends, keep);
    FilterCount(friends, keep);
    if name in friends then Filter(friends, keep)
    else
      FilterKeepsAll(friends, keep);
      friends
  }

  /** Removal is a filter whether or not the name is present. */
  lemma RemoveIsFilter(friends: seq<string>, name: string)
    ensures RemoveFriendFrom(friends, name) == Filter(friends, (f: string) => f != name)
  {
    if name !in friends {
      FilterKeepsAll(friends, (f: string) => f != name);
    }
  }

  /** Removal works element by element: a list split in two is cleaned
      piecewise, and a single element survives exactly when it is not the
      name. Together these pin the result, order included. */
  lemma RemoveFriendFromSplits(a: seq<string>, b: seq<string>, name: string, x: string)
    ensures RemoveFriendFrom(a + b, name) == RemoveFriendFrom(a, name) + RemoveFriendFrom(b, name)
    ensures RemoveFriendFrom([x], name) == if x == name then [] else [x]
  {
    var keep := (f: string) => f != name;
    RemoveIsFilter(a + b, name);
    RemoveIsFilter(a, name);
    RemoveIsFilter(b, name);
    RemoveIsFilter([x], name);
    FilterConcat(a, b, keep);
  }

  /** Removing keeps a duplicate-free list duplicate-free. */
  lemma RemoveKeepsNoDup(friends: seq<string>, name: string)
    requires NoDup(friends)
    ensures NoDup(RemoveFriendFrom(friends, name))
  {
    FilterNoDup(friends, (f: string) => f != name);
  }

  /** Adding a friend twice is adding once. */
  lemma AddFriendIdempotent(friends: seq<string>, name: string)
    ensures AddFriendTo(AddFriendTo(friends, name), name) == AddFriendTo(friends, name)
  {
  }

  /** Removing a name that was just added gives back the original list. */
  lemma RemoveUndoesAdd(friends: seq<string>, name: string)
    requires name !in friends
    ensures RemoveFriendFrom(AddFriendTo(friends, name), name) == friends
  {
    var keep := (f: string) => f != name;
    FilterKeepsAll(friends, keep);
    FilterConcat(friends, [name], keep);
  }

  /** Adding a name that was just removed puts it at the end. */
  lemma AddAfterRemoveMovesToEnd(friends: seq<string>, name: string)
    ensures AddFriendTo(RemoveFriendFrom(friends, name), name) == RemoveFriendFrom(friends, name) + [name]
  {
  }

  /** The signed-in user and the stored user list ("database"). */
  datatype Account = Account(user: Option<User>, users: seq<User>)

  /** updateUser's write to the store: the record with the same email is
      replaced, everything else stays in place. */
  function ReplaceByEmail(users: seq<User>, updated: User): (r: seq<User>)
    ensures |r| == |users|
    ensures forall i :: 0 <= i < |r| ==> r[i].email == users[i].email
    ensures forall i :: 0 <= i < |r| && users[i].email == updated.email ==> r[i] == updated
    ensures forall i :: 0 <= i < |r| && users[i].email != updated.email ==> r[i] == users[i]
  {
    if |users| == 0 then []
    else [if users[0].email == updated.email then updated else users[0]] + ReplaceByEmail(users[1..], updated)
  }

  /** The emails of a user list. */
  function Emails(users: seq<User>): (r: seq<string>)
    ensures |r| == |users|
    ensures forall i :: 0 <= i < |users| ==> r[i] == users[i].email
  {
    seq(|users|, i requires 0 <= i < |users| => users[i].email)
  }

  /** Writing a user back never changes which emails are registered. */
  lemma ReplaceKeepsEmails(users: seq<User>, updated: User)
    ensures Emails(ReplaceByEmail(users, updated)) == Emails(users)
  {
  }

  /** Writing the same record twice is writing it once. */
  lemma ReplaceIdempotent(users: seq<User>, updated: User)
    ensures ReplaceByEmail(ReplaceByEmail(users, updated), updated) == ReplaceByEmail(users, updated)
  {
  }

  /** updateUser: the signed-in user becomes `updated`, and so does the stored
      record with its email. */
  function UpdateUser(a: Account, updated: User): (r: Account)
    ensures r.user == Some(updated)
    ensures Emails(r.users) == Emails(a.users)
  {
    ReplaceKeepsEmails(a.users, updated);
    Account(Some(updated), ReplaceByEmail(a.users, updated))
  }

  /** addFriend: only with a signed-in user who does not list the name yet. */
  function AddFriend(a: Account, name: string): (r: Account)
    ensures a.user.None? ==> r == a
    ensures a.user.Some? && name in a.user.value.friends ==> r == a
    ensures r.user.Some? <==> a.user.Some?
    ensures a.user.Some? ==> r.user.value == a.user.value.(friends := AddFriendTo(a.user.value.friends, name))
    ensures a.user.Some? && name !in a.user.value.friends ==> r.users == ReplaceByEmail(a.users, r.user.value)
    ensures Emails(r.users) == Emails(a.users)
  {
    match a.user
    case None => a
    case Some(u) =>
      if name !in u.friends then UpdateUser(a, u.(friends := u.friends + [name])) else a
  }

  /** removeFriend: only with a signed-in user who lists the name. */
  function RemoveFriend(a: Account, name: string): (r: Account)
    ensures a.user.None? ==> r == a
    ensures a.user.Some? && name !in a.user.value.friends ==> r == a
    ensures r.user.Some? <==> a.user.Some?
    ensures a.user.Some? ==> r.user.value == a.user.value.(friends := RemoveFriendFrom(a.user.value.friends, name))
    ensures Emails(r.users) == Emails(a.users)
  {
    match a.user
    case None => a
    case Some(u) =>
      if name in u.friends then UpdateUser(a, u.(friends := RemoveFriendFrom(u.friends, name))) else a
  }

  /** Removing a friend that addFriend just added restores the user. */
  lemma AddThenRemoveFriend(a: Account, name: string)
    requires a.user.Some? && name !in a.user.value.friends
    ensures RemoveFriend(AddFriend(a, name), name).user == a.user
  {
    RemoveUndoesAdd(a.user.value.friends, name);
  }

  /** The first position satisfying p, as Array.prototype.findIndex. */
  function FindIndex<T>(s: seq<T>, p: T -> bool): (r: Option<nat>)
    ensures r.None? <==> forall i :: 0 <= i < |s| ==> !p(s[i])
    ensures r.Some? ==> r.value < |s| && p(s[r.value]) && forall j :: 0 <= j < r.value ==> !p(s[j])
  {
    if |s| == 0 then None
    else if p(s[0]) then Some(0)
    else match FindIndex(s[1..], p)
      case None => None
      case Some(k) => Some(k + 1)
  }

  // ---------------------------------------------------------------------
  // Registered emails and signup

  predicate EmailTaken(users: seq<User>, email: string) {
    exists i :: 0 <= i < |users| && users[i].email == email
  }

  /** signup's duplicate-email rule: `ok` is false and nothing changes when
      the email is registered; otherwise the new user, stamped with the join
      date, is stored at the end and signed in. */
  function Signup(a: Account, data: User, joined: string): (res: (bool, Account))
    ensures !res.0 <==> EmailTaken(a.users, data.email)
    ensures !res.0 ==> res.1 == a
    ensures res.0 ==> res.1.user == Some(data.(joinedDate := Some(joined)))
    ensures res.0 ==> |res.1.users| == |a.users| + 1 && res.1.users[..|a.users|] == a.users
    ensures res.0 ==> res.1.users[|a.users|] == data.(joinedDate := Some(joined))
  {
    if EmailTaken(a.users, data.email) then (false, a)
    else
      var u := data.(joinedDate := Some(joined));
      (true, Account(Some(u), a.users + [u]))
  }

  /** No two stored users share an email. */
  predicate UniqueEmails(users: seq<User>) {
    forall i, j :: 0 <= i < j < |users| ==> users[i].email != users[j].email
  }

  /** Signup keeps the emails of the store unique, and so does every write
      of the signed-in user. */
  lemma SignupKeepsEmailsUnique(a: Account, data: User, joined: string)
    requires UniqueEmails(a.users)
    ensures UniqueEmails(Signup(a, data, joined).1.users)
  {
    var res := Signup(a, data, joined);
    if res.0 {
      forall i, j | 0 <= i < j < |res.1.users| ensures res.1.users[i].email != res.1.users[j].email {
        if j == |a.users| {
          assert res.1.users[i] == a.users[i];
          assert !EmailTaken(a.users, data.email);
        } else {
          assert res.1.users[i] == a.users[i] && res.1.users[j] == a.users[j];
        }
      }
    }
  }

  lemma UpdateKeepsEmailsUnique(a: Account, updated: User)
    requires UniqueEmails(a.users)
    ensures UniqueEmails(UpdateUser(a, updated).users)
  {
    var r := UpdateUser(a, updated).users;
    forall i, j | 0 <= i < j < |r| ensures r[i].email != r[j].email {
      assert r[i].email == Emails(r)[i] == Emails(a.users)[i];
      assert r[j].email == Emails(r)[j] == Emails(a.users)[j];
    }
  }

  /** A second signup with the same email is refused. */
  lemma SignupTwiceRefused(a: Account, data: User, other: User, joined: string, later: string)
    requires Signup(a, data, joined).0
    requires other.email == data.email
    ensures !Signup(Signup(a, data, joined).1, other, later).0
  {
    var b := Signup(a, data, joined).1;
    assert b.users[|a.users|].email == other.email;
  }

  // ---------------------------------------------------------------------
  // Liked profiles

  predicate HasProfileNamed(liked: seq<Profile>, name: string) {
    exists i :: 0 <= i < |liked| && liked[i].name == name
  }

  /** likeProfile: appended only when no liked profile has the same name. */
  function LikeProfile(liked: seq<Profile>, p: Profile): (r: seq<Profile>)
    ensures HasProfileNamed(liked, p.name) ==> r == liked
    ensures !HasProfileNamed(liked, p.name) ==> r == liked + [p]
    ensures HasProfileNamed(r, p.name)
  {
    if HasProfileNamed(liked, p.name) then liked
    else
      assert (liked + [p])[|liked|].name == p.name;
      liked + [p]
  }

  /** No two liked profiles share a name. */
  predicate UniqueNames(liked: seq<Profile>) {
    forall i, j :: 0 <= i < j < |liked| ==> liked[i].name != liked[j].name
  }

  /** Liking keeps profile names unique. */
  lemma LikeKeepsNamesUnique(liked: seq<Profile>, p: Profile)
    requires UniqueNames(liked)
    ensures UniqueNames(LikeProfile(liked, p))
  {
    var r := LikeProfile(liked, p);
    if !HasProfileNamed(liked, p.name) {
      forall i, j | 0 <= i < j < |r| ensures r[i].name != r[j].name {
        if j == |liked| {
          assert r[i] == liked[i];
        } else {
          assert r[i] == liked[i] && r[j] == liked[j];
        }
      }
    }
  }

  /** Liking the same profile twice is liking it once. */
  lemma LikeIdempotent(liked: seq<Profile>, p: Profile)
    ensures LikeProfile(LikeProfile(liked, p), p) == LikeProfile(liked, p)
  {
  }

  // ---------------------------------------------------------------------
  // Group chats

  /** createGroupChat: a chat with id `now`, the members followed by 'You' and
      no messages, put in front of the existing chats. */
  function CreateGroupChat(chats: seq<GroupChat>, name: string, members: seq<string>, now: int): (r: seq<GroupChat>)
    ensures |r| == |chats| + 1 && r[1..] == chats
    ensures r[0].id == now && r[0].name == name && |r[0].messages| == 0
    ensures |r[0].members| == |members| + 1 && r[0].members[..|members|] == members && r[0].members[|members|] == "You"
  {
    [GroupChat(now, name, members + ["You"], [])] + chats
  }

  predicate HasId(chats: seq<GroupChat>, id: int) {
    exists i :: 0 <= i < |chats| && chats[i].id == id
  }

  /** The positions, ids, names and members of chats; everything but the
      messages. */
  predicate SameExceptMessages(a: seq<GroupChat>, b: seq<GroupChat>) {
    |a| == |b| &&
    forall i :: 0 <= i < |a| ==> a[i].id == b[i].id && a[i].name == b[i].name && a[i].members == b[i].members
  }

  /** updateGroupChat: every chat with the id gets the given messages; no
      chat moves. */
  function UpdateGroupChat(chats: seq<GroupChat>, id: int, messages: seq<Message>): (r: seq<GroupChat>)
    ensures SameExceptMessages(r, chats)
    ensures forall i :: 0 <= i < |r| && chats[i].id == id ==> r[i].messages == messages
    ensures forall i :: 0 <= i < |r| && chats[i].id != id ==> r[i] == chats[i]
  {
    seq(|chats|, i requires 0 <= i < |chats| => if chats[i].id == id then chats[i].(messages := messages) else chats[i])
  }

  /** renameGroupChat: every chat with the id gets the new name; no chat
      moves. */
  function RenameGroupChat(chats: seq<GroupChat>, id: int, name: string): (r: seq<GroupChat>)
    ensures |r| == |chats|
    ensures forall i :: 0 <= i < |r| ==> r[i].id == chats[i].id && r[i].members == chats[i].members && r[i].messages == chats[i].messages
    ensures forall i :: 0 <= i < |r| && chats[i].id == id ==> r[i].name == name
    ensures forall i :: 0 <= i < |r| && chats[i].id != id ==> r[i] == chats[i]
  {
    seq(|chats|, i requires 0 <= i < |chats| => if chats[i].id == id then chats[i].(name := name) else chats[i])
  }

  /** leaveGroupChat: every chat with the id goes; the rest keep their order. */
  function LeaveGroupChat(chats: seq<GroupChat>, id: int): (r: seq<GroupChat>)
    ensures forall c :: c in r <==> c in chats && c.id != id
    ensures forall c :: multiset(r)[c] == if c.id == id then 0 else multiset(chats)[c]
    ensures !HasId(r, id)
    ensures |r| <= |chats|
  {
    var keep := (c: GroupChat) => c.id != id;
    FilterMembers(chats, keep);
    FilterCount(chats, keep);
    Filter(chats, keep)
  }

  /** Leaving works chat by chat: a list split in two is cleaned piecewise,
      and a single chat survives exactly when its id differs. Together these
      pin the result, order included. */
  lemma LeaveGroupChatSplits(a: seq<GroupChat>, b: seq<GroupChat>, id: int, c: GroupChat)
    ensures LeaveGroupChat(a + b, id) == LeaveGroupChat(a, id) + LeaveGroupChat(b, id)
    ensures LeaveGroupChat([c], id) == if c.id == id then [] else [c]
  {
    FilterConcat(a, b, (c: GroupChat) => c.id != id);
  }

  /** An id no chat has changes nothing. */
  lemma UnknownIdIsNoOp(chats: seq<GroupChat>, id: int, messages: seq<Message>, name: string)
    requires !HasId(chats, id)
    ensures UpdateGroupChat(chats, id, messages) == chats
    ensures RenameGroupChat(chats, id, name) == chats
    ensures LeaveGroupChat(chats, id) == chats
  {
    FilterKeepsAll(chats, (c: GroupChat) => c.id != id);
  }

  /** Leaving a chat right after creating it (with a fresh id) restores the
      list. */
  lemma LeaveUndoesCreate(chats: seq<GroupChat>, name: string, members: seq<string>, now: int)
    requires !HasId(chats, now)
    ensures LeaveGroupChat(CreateGroupChat(chats, name, members, now), now) == chats
  {
    var keep := (c: GroupChat) => c.id != now;
    FilterKeepsAll(chats, keep);
    assert CreateGroupChat(chats, name, members, now)[1..] == chats;
  }

  /** A message sent to a group never reorders the list: the ids stay where
      they were. */
  lemma UpdateNeverReorders(chats: seq<GroupChat>, id: int, messages: seq<Message>)
    ensures |UpdateGroupChat(chats, id, messages)| == |chats|
    ensures forall i :: 0 <= i < |chats| ==> UpdateGroupChat(chats, id, messages)[i].id == chats[i].id
  {
  }

  // ---------------------------------------------------------------------
  // Private chats

  predicate HasChatWith(chats: seq<PrivateChat>, friend: string) {
    exists i :: 0 <= i < |chats| && chats[i].friend == friend
  }

  /** startPrivateChat: a new empty chat is put in front only when there is
      no chat with that friend yet. */
  function StartPrivateChat(chats: seq<PrivateChat>, friend: string, now: int): (r: seq<PrivateChat>)
    ensures HasChatWith(chats, friend) ==> r == chats
    ensures !HasChatWith(chats, friend) ==> r == [PrivateChat(friend, now, [])] + chats
    ensures HasChatWith(r, friend)
  {
    if HasChatWith(chats, friend) then chats
    else
      assert ([PrivateChat(friend, now, [])] + chats)[0].friend == friend;
      [PrivateChat(friend, now, [])] + chats
  }

  /** Starting a chat twice starts it once, whatever the clock says. */
  lemma StartIdempotent(chats: seq<PrivateChat>, friend: string, now: int, later: int)
    ensures StartPrivateChat(StartPrivateChat(chats, friend, now), friend, later) == StartPrivateChat(chats, friend, now)
  {
  }

  function IsChatWith(friend: string): PrivateChat -> bool {
    (c: PrivateChat) => c.friend == friend
  }

  /** The chat at position i after the user sends `text` at `now`. */
  function Sent(c: PrivateChat, text: string, now: int): (r: PrivateChat)
    ensures r.friend == c.friend && r.lastActivity == now
    ensures |r.messages| == |c.messages| + 1 && r.messages[..|c.messages|] == c.messages
    ensures r.messages[|c.messages|] == TextFromYou(text, now)
  {
    c.(messages := c.messages + [TextFromYou(text, now)], lastActivity := now)
  }

  /** sendPrivateMessage: the first chat with the friend receives the message
      and the list is re-sorted, most recent activity first (stably). */
  function SendPrivateMessage(chats: seq<PrivateChat>, friend: string, text: string, now: int): (r: seq<PrivateChat>)
    ensures !HasChatWith(chats, friend) ==> r == chats
    ensures HasChatWith(chats, friend) ==> SortedDesc(r, LastActivity)
    ensures |r| == |chats|
  {
    match FindIndex(chats, IsChatWith(friend))
    case None => chats
    case Some(i) => SortDesc(chats[i := Sent(chats[i], text, now)], LastActivity)
  }

  /** The chats after sending are the old ones with the friend's first chat
      replaced by its updated copy, in some order. */
  lemma SendPermutes(chats: seq<PrivateChat>, friend: string, text: string, now: int, i: nat)
    requires i < |chats| && chats[i].friend == friend
    requires forall j :: 0 <= j < i ==> chats[j].friend != friend
    ensures multiset(SendPrivateMessage(chats, friend, text, now)) == multiset(chats[i := Sent(chats[i], text, now)])
  {
    var k := FindIndex(chats, IsChatWith(friend));
    assert k == Some(i);
  }

  /** With the list sorted and the clock past every activity, the chat moves
      to the front and the others keep their relative order. */
  lemma SendMovesChatToFront(chats: seq<PrivateChat>, friend: string, text: string, now: int, i: nat)
    requires i < |chats| && chats[i].friend == friend
    requires forall j :: 0 <= j < i ==> chats[j].friend != friend
    requires SortedDesc(chats, LastActivity)
    requires forall j :: 0 <= j < |chats| && j != i ==> chats[j].lastActivity < now
    ensures SendPrivateMessage(chats, friend, text, now) == [Sent(chats[i], text, now)] + (chats[..i] + chats[i + 1..])
  {
    var k := FindIndex(chats, IsChatWith(friend));
    assert k == Some(i);
    SortMovesNewMaxToFront(chats, i, Sent(chats[i], text, now), LastActivity);
  }

  /** The clock must be strictly newer: at a tie the stable sort keeps the
      earlier chat in front of the one just written to. */
  lemma SendAtTieStaysBehind()
    ensures var a, b := PrivateChat("a", 5, []), PrivateChat("b", 5, []);
      SendPrivateMessage([a, b], "b", "hi", 5) == [a, Sent(b, "hi", 5)]
  {
    var a, b := PrivateChat("a", 5, []), PrivateChat("b", 5, []);
    var b' := Sent(b, "hi", 5);
    assert FindIndex([a, b], IsChatWith("b")) == Some(1);
    assert [a, b][1 := b'] == [a, b'];
    SortCons(a, [b'], LastActivity);
    SortCons(b', [], LastActivity);
  }
}
