/**
  The private-message view (views/Messages.tsx): the chat list ordered by
  recency, its preview line and initials, the send guard, and the friend
  picker for a new chat.
 */
module Messages {
  import opened Options
  import opened Seqs
  import opened Strings
  import opened Types
  import opened Session

  /** sortedChats: a copy of the chats, most recent activity first; equal
      activity keeps the context's order. */
  function SortedChats(chats: seq<PrivateChat>): (r: seq<PrivateChat>)
    ensures SortedDesc(r, LastActivity)
    ensures multiset(r) == multiset(chats)
  {
    SortDesc(chats, LastActivity)
  }

  /** Sorting the list changes its order only when it is out of order. */
  lemma SortedChatsIsIdentityIff(chats: seq<PrivateChat>)
    ensures SortedChats(chats) == chats <==> SortedDesc(chats, LastActivity)
  {
    if SortedDesc(chats, LastActivity) {
      SortSortedIsIdentity(chats, LastActivity);
    }
  }

  /** After a send the context's list is already in recency order, so the
      view shows it as it is. */
  lemma SortedChatsAfterSend(chats: seq<PrivateChat>, friend: string, text: string, now: int)
    requires HasChatWith(chats, friend)
    ensures SortedChats(SendPrivateMessage(chats, friend, text, now)) == SendPrivateMessage(chats, friend, text, now)
  {
    SortSortedIsIdentity(SendPrivateMessage(chats, friend, text, now), LastActivity);
  }

  /** Chats with the same activity time keep their relative order. */
  lemma SortedChatsStable(chats: seq<PrivateChat>)
    ensures SameOrderPerKey(SortedChats(chats), chats, LastActivity)
  {
    SortDescStable(chats, LastActivity);
  }

  // ---------------------------------------------------------------------
  // Initials and preview

  /** `n[0]` of one word; an empty word contributes nothing to the join. */
  function Initial(word: string): (r: string)
    ensures |r| <= 1
    ensures |word| > 0 <==> |r| == 1
  {
    if |word| > 0 then [word[0]] else ""
  }

  function InitialsOf(words: seq<string>): (r: string)
    ensures |r| <= |words|
  {
    if |words| == 0 then "" else Initial(words[0]) + InitialsOf(words[1..])
  }

  /** getInitials: the first character of each space-separated word. */
  function Initials(name: string): (r: string)
    ensures |r| <= |Split(name, ' ')|
    ensures |r| <= |name| + 1
  {
    var words := Split(name, ' ');
    assert |Join(words, ' ')| == |name|;
    JoinLength(words, ' ');
    InitialsOf(words)
  }

  lemma {:induction false} JoinLength(words: seq<string>, sep: char)
    ensures |words| <= |Join(words, sep)| + 1
  {
    if |words| > 1 {
      JoinLength(words[1..], sep);
    }
  }

  lemma {:induction false} InitialsOfConcat(x: seq<string>, y: seq<string>)
    ensures InitialsOf(x + y) == InitialsOf(x) + InitialsOf(y)
    decreases |x|
  {
    if |x| > 0 {
      assert (x + y)[0] == x[0] && (x + y)[1..] == x[1..] + y;
      InitialsOfConcat(x[1..], y);
    } else {
      assert x + y == y;
    }
  }

  /** Every name splits at its spaces: the initials of two names joined by a
      space are the initials of the first followed by those of the second. */
  lemma InitialsAtSpace(a: string, b: string)
    ensures Initials(a + " " + b) == Initials(a) + Initials(b)
  {
    SplitAtSeparator(a, b, ' ');
    InitialsOfConcat(Split(a, ' '), Split(b, ' '));
  }

  lemma {:induction false} InitialsOfFirsts(words: seq<string>)
    requires forall i :: 0 <= i < |words| ==> |words[i]| > 0
    ensures InitialsOf(words) == seq(|words|, i requires 0 <= i < |words| => words[i][0])
  {
    if |words| > 0 {
      InitialsOfFirsts(words[1..]);
    }
  }

  /** For a name made of non-empty words separated by single spaces, the
      initials are the words' first letters, in order. */
  lemma InitialsOfWords(words: seq<string>)
    requires |words| >= 1
    requires forall i :: 0 <= i < |words| ==> |words[i]| > 0 && ' ' !in words[i]
    ensures Initials(Join(words, ' ')) == seq(|words|, i requires 0 <= i < |words| => words[i][0])
  {
    SplitJoin(words, ' ');
    InitialsOfFirsts(words);
  }

  /** The list's second line: the last message's text; a drawing has no text
      and shows nothing; an empty chat shows 'No messages'. */
  function Preview(c: PrivateChat): (r: string)
    ensures |c.messages| == 0 ==> r == "No messages"
    ensures |c.messages| > 0 ==> (r == "" <==> c.messages[|c.messages| - 1].text in {None, Some("")})
    ensures |c.messages| > 0 && c.messages[|c.messages| - 1].text.Some? ==> r == c.messages[|c.messages| - 1].text.value
  {
    if |c.messages| == 0 then "No messages"
    else match c.messages[|c.messages| - 1].text
      case None => ""
      case Some(t) => t
  }

  /** A chat the user has just written to previews what was sent. */
  /** Only the newest message counts: whatever came before, appending a
      message makes the preview its text, or nothing for a drawing. */
  lemma PreviewOfAppended(c: PrivateChat, m: Message)
    ensures Preview(c.(messages := c.messages + [m])) == if m.text.Some? then m.text.value else ""
  {
  }

  lemma PreviewShowsSent(c: PrivateChat, text: string, now: int)
    ensures Preview(Sent(c, text, now)) == text
  {
  }

  // ---------------------------------------------------------------------
  // Sending

  /** handleSendMessage: with a friend selected and non-blank input, the
      trimmed text is sent and the input cleared; otherwise nothing
      happens. Returns the chats and the input box. */
  function HandleSend(chats: seq<PrivateChat>, activeFriend: Option<string>, input: string, now: int): (r: (seq<PrivateChat>, string))
    ensures activeFriend.None? || activeFriend == Some("") || Trim(input) == "" ==> r == (chats, input)
    ensures activeFriend.Some? && activeFriend.value != "" && Trim(input) != "" ==>
      r == (SendPrivateMessage(chats, activeFriend.value, Trim(input), now), "")
  {
    match activeFriend
    case None => (chats, input)
    case Some(f) =>
      if f != "" && Trim(input) != "" then (SendPrivateMessage(chats, f, Trim(input), now), "")
      else (chats, input)
  }

  /** What a send delivers: the friend's chat (first in the list once
      re-sorted by a clock past every activity) ends in one message carrying
      the trimmed, non-blank text. */
  lemma HandleSendDelivers(chats: seq<PrivateChat>, friend: string, input: string, now: int, i: nat)
    requires friend != "" && Trim(input) != ""
    requires i < |chats| && chats[i].friend == friend
    requires forall j :: 0 <= j < i ==> chats[j].friend != friend
    requires SortedDesc(chats, LastActivity)
    requires forall j :: 0 <= j < |chats| && j != i ==> chats[j].lastActivity < now
    ensures var r := HandleSend(chats, Some(friend), input, now).0;
      |r| == |chats| && r[0].friend == friend &&
      |r[0].messages| == |chats[i].messages| + 1 &&
      r[0].messages[|chats[i].messages|].text == Some(Trim(input)) &&
      IsTrimmed(Trim(input)) && |Trim(input)| > 0
  {
    SendMovesChatToFront(chats, friend, Trim(input), now, i);
  }

  // ---------------------------------------------------------------------
  // Friend pickers

  function IsNamedIn(friends: seq<string>): Profile -> bool {
    (p: Profile) => p.name in friends
  }

  /** The profiles a friend list names, in profile order (the new-chat
      picker here and the member picker of the group view). */
  function FriendProfiles(profiles: seq<Profile>, friends: seq<string>): (r: seq<Profile>)
    ensures forall p :: p in r <==> p in profiles && p.name in friends
    ensures |r| <= |profiles|
  {
    FilterMembers(profiles, IsNamedIn(friends));
    Filter(profiles, IsNamedIn(friends))
  }

  /** The new-chat picker: nothing without a signed-in user. */
  function NewChatPicker(user: Option<User>, profiles: seq<Profile>): (r: seq<Profile>)
    ensures user.None? ==> r == []
    ensures forall p :: p in r <==> user.Some? && p in profiles && p.name in user.value.friends
  {
    match user
    case None => []
    case Some(u) => FriendProfiles(profiles, u.friends)
  }

  /** The picker keeps profile order: it distributes over concatenation. */
  lemma FriendProfilesKeepsOrder(a: seq<Profile>, b: seq<Profile>, friends: seq<string>)
    ensures FriendProfiles(a + b, friends) == FriendProfiles(a, friends) + FriendProfiles(b, friends)
  {
    FilterConcat(a, b, IsNamedIn(friends));
  }

  /** A profile whose name is added as a friend appears in the picker. */
  lemma AddedFriendIsOffered(a: Account, profiles: seq<Profile>, p: Profile)
    requires a.user.Some? && p in profiles
    ensures p in NewChatPicker(AddFriend(a, p.name).user, profiles)
  {
  }
}
