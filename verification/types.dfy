/**
  The records the application passes around (types.ts): candidate profiles,
  the signed-in user with their friend list, chat messages, group chats and
  private chats.
 */
module Types {
  import opened Options

  /** A candidate study partner. `name` identifies a profile. */
  datatype Profile = Profile(
    name: string,
    age: int,
    currentSchool: string,
    dreamSchool: string,
    major: string,
    studyInterest: string,
    preferredTimeframe: string,
    avatar: Option<string>)

  /** The age a user record holds: the sign-up form starts with an empty
      field, and every edit stores a number. */
  datatype Age = Blank | Years(n: int)

  /** The signed-in user. `friends` lists profile names in the order they
      were added. */
  datatype User = User(
    name: string,
    email: string,
    password: string,
    age: Age,
    currentSchool: string,
    dreamSchool: string,
    major: string,
    studyInterest: string,
    preferredTimeframe: string,
    bio: string,
    avatar: Option<string>,
    friends: seq<string>,
    joinedDate: Option<string>)

  /** A chat message; text messages carry `text`, drawings carry `image`. */
  datatype Message = Message(
    from: string,
    text: Option<string>,
    image: Option<string>,
    time: string,
    timestamp: int,
    me: bool)

  datatype GroupChat = GroupChat(id: int, name: string, members: seq<string>, messages: seq<Message>)

  datatype PrivateChat = PrivateChat(friend: string, lastActivity: int, messages: seq<Message>)

  /** The key private chats are ordered by, most recent first. */
  function LastActivity(c: PrivateChat): int {
    c.lastActivity
  }

  /** The text message the user sends at time `now`. */
  function TextFromYou(text: string, now: int): Message {
    Message("You", Some(text), None, "Now", now, true)
  }

  /** The drawing message the user sends at time `now`. */
  function ImageFromYou(dataUrl: string, now: int): Message {
    Message("You", None, Some(dataUrl), "Now", now, true)
  }
}
