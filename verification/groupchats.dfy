/**
  The group-chat view (views/GroupChats.tsx): the guards in front of the
  context's group-chat operations, and the member selection of the create
  form.
 */
module GroupChats {
  import opened Options
  import opened Seqs
  import opened Strings
  import opened Types
  import opened Session

  function HasIdOf(id: int): GroupChat -> bool {
    (c: GroupChat) => c.id == id
  }

  /** activeChat: the first chat with the selected id; none when no chat is
      selected or the chat is gone. */
  function ActiveChat(chats: seq<GroupChat>, activeId: Option<int>): (r: Option<GroupChat>)
    ensures r.None? <==> activeId.None? || !HasId(chats, activeId.value)
    ensures r.Some? ==> r.value in chats && activeId == Some(r.value.id)
  {
    match activeId
    case None => None
    case Some(id) =>
      match FindIndex(chats, HasIdOf(id))
      case None => None
      case Some(i) => Some(chats[i])
  }

  /** The chats after the active chat's messages gain `m`: every chat sharing
      the active chat's id carries the active chat's messages followed by m,
      every other chat is untouched, and nothing moves. */
  function AppendToActive(chats: seq<GroupChat>, active: GroupChat, m: Message): (r: seq<GroupChat>)
    ensures SameExceptMessages(r, chats)
    ensures forall i :: 0 <= i < |r| && chats[i].id == active.id ==> r[i].messages == active.messages + [m]
    ensures forall i :: 0 <= i < |r| && chats[i].id != active.id ==> r[i] == chats[i]
  {
    UpdateGroupChat(chats, active.id, active.messages + [m])
  }

  /** handleSendMessage: with a chat open and non-blank input, the chat's
      messages gain one text message from 'You' with the trimmed text, and
      the input is cleared; otherwise nothing happens. */
  function SendGroupMessage(chats: seq<GroupChat>, activeId: Option<int>, input: string, now: int): (r: (seq<GroupChat>, string))
    ensures ActiveChat(chats, activeId).None? || Trim(input) == "" ==> r == (chats, input)
    ensures ActiveChat(chats, activeId).Some? && Trim(input) != "" ==>
      r.1 == "" && r.0 == AppendToActive(chats, ActiveChat(chats, activeId).value, TextFromYou(Trim(input), now))
  {
    match ActiveChat(chats, activeId)
    case None => (chats, input)
    case Some(c) =>
      if Trim(input) == "" then (chats, input)
      else (AppendToActive(chats, c, TextFromYou(Trim(input), now)), "")
  }

  /** handleSendDrawing: with a chat open, one image message from 'You' is
      appended; the text input is not involved. */
  function SendDrawing(chats: seq<GroupChat>, activeId: Option<int>, dataUrl: string, now: int): (r: seq<GroupChat>)
    ensures ActiveChat(chats, activeId).None? ==> r == chats
    ensures ActiveChat(chats, activeId).Some? ==> r == AppendToActive(chats, ActiveChat(chats, activeId).value, ImageFromYou(dataUrl, now))
  {
    match ActiveChat(chats, activeId)
    case None => chats
    case Some(c) => AppendToActive(chats, c, ImageFromYou(dataUrl, now))
  }

  /** Appending to the open chat: the chat at the same position now ends in
      exactly the new message after its old ones, every other chat is as it
      was, and the list keeps its order. */
  lemma AppendToActiveAppends(chats: seq<GroupChat>, activeId: Option<int>, m: Message, i: nat)
    requires ActiveChat(chats, activeId).Some?
    requires i < |chats| && chats[i] == ActiveChat(chats, activeId).value
    requires forall j :: 0 <= j < |chats| && j != i ==> chats[j].id != chats[i].id
    ensures var r := AppendToActive(chats, chats[i], m);
      SameExceptMessages(r, chats) &&
      r[i].messages == chats[i].messages + [m] &&
      forall j :: 0 <= j < |chats| && j != i ==> r[j] == chats[j]
  {
  }

  /** What the send delivers: the open chat's last message is from 'You',
      carries the trimmed, non-blank text and no image. */
  lemma SendGroupMessageDelivers(chats: seq<GroupChat>, activeId: Option<int>, input: string, now: int, i: nat)
    requires ActiveChat(chats, activeId).Some? && Trim(input) != ""
    requires i < |chats| && chats[i] == ActiveChat(chats, activeId).value
    ensures var r := SendGroupMessage(chats, activeId, input, now).0;
      var last := r[i].messages[|r[i].messages| - 1];
      |r[i].messages| == |chats[i].messages| + 1 &&
      last.from == "You" && last.me && last.text == Some(Trim(input)) && last.image.None? &&
      IsTrimmed(Trim(input)) && |Trim(input)| > 0
  {
  }

  /** The outcome of the create form: the chats and the reset form fields. */
  datatype CreateForm = CreateForm(name: string, selected: seq<string>)

  /** handleCreateGroup: needs a name and at least one member; on success
      the group is created and the form reset. */
  function CreateGroup(chats: seq<GroupChat>, form: CreateForm, now: int): (r: (seq<GroupChat>, CreateForm))
    ensures form.name == "" || |form.selected| == 0 ==> r == (chats, form)
    ensures form.name != "" && |form.selected| > 0 ==>
      r.1 == CreateForm("", []) && |r.0| == |chats| + 1 && r.0[1..] == chats &&
      r.0[0].id == now && r.0[0].name == form.name && r.0[0].members == form.selected + ["You"] && r.0[0].messages == []
  {
    if form.name == "" || |form.selected| == 0 then (chats, form)
    else (CreateGroupChat(chats, form.name, form.selected, now), CreateForm("", []))
  }

  /** handleRename: with a chat open and a non-empty text the chat is
      renamed. The text is not trimmed, so a name of spaces is accepted. */
  function Rename(chats: seq<GroupChat>, activeId: Option<int>, text: string): (r: seq<GroupChat>)
    ensures ActiveChat(chats, activeId).None? || text == "" ==> r == chats
    ensures ActiveChat(chats, activeId).Some? && text != "" ==> r == RenameGroupChat(chats, activeId.value, text)
  {
    match ActiveChat(chats, activeId)
    case None => chats
    case Some(c) => if text != "" then RenameGroupChat(chats, c.id, text) else chats
  }

  /** A blank name gets through: renaming to a single space succeeds. */
  lemma RenameAcceptsBlank(chats: seq<GroupChat>, activeId: Option<int>, i: nat)
    requires ActiveChat(chats, activeId).Some?
    requires i < |chats| && chats[i] == ActiveChat(chats, activeId).value
    ensures Rename(chats, activeId, " ")[i].name == " "
    ensures Trim(" ") == ""
  {
    TrimEmptyIff(" ");
  }

  /** The member checkbox: checking appends the name, unchecking removes
      every occurrence. */
  function ToggleMember(selected: seq<string>, name: string, checked: bool): (r: seq<string>)
    ensures checked ==> r == selected + [name]
    ensures !checked ==> forall x :: x in r <==> x in selected && x != name
    ensures !checked ==> forall x :: multiset(r)[x] == if x == name then 0 else multiset(selected)[x]
  {
    if checked then selected + [name] else RemoveFriendFrom(selected, name)
  }

  /** Unchecking cleans a selection piecewise and keeps the order of what
      remains. */
  lemma UncheckSplits(a: seq<string>, b: seq<string>, name: string)
    ensures ToggleMember(a + b, name, false) == ToggleMember(a, name, false) + ToggleMember(b, name, false)
  {
    RemoveFriendFromSplits(a, b, name, name);
  }

  /** Checking a box that was clear and clearing it again restores the
      selection. */
  lemma ToggleTwiceRestores(selected: seq<string>, name: string)
    requires name !in selected
    ensures ToggleMember(ToggleMember(selected, name, true), name, false) == selected
  {
    RemoveUndoesAdd(selected, name);
  }
}
