/** The in-memory state of one client: the sign-up and sign-in forms, the
    signed-in user and the chat view. Nothing here is persisted except through
    the handlers that write the store. */
module Session {
  import opened Records
  import opened Gateway

  datatype SignUpForm = SignUpForm(name: string, grade: string, teacher: string, school: string)

  const EmptyForm: SignUpForm := SignUpForm("", "", "", "")

  /** The inline error notices of the sign-in and sign-up screens. */
  datatype AuthError =
    | MissingCredentials     // "Please enter both name and password"
    | AccountNotFound        // "Account not found. Please check your name ..."
    | IncorrectPassword      // "Incorrect password. Please try again."
    | SignInFailed           // "Account not found. Please create a new account."
    | MissingPasswordField   // "Please fill in both password fields"
    | PasswordTooShort       // "Password must be at least 6 characters long"
    | PasswordMismatch       // "Passwords do not match"
    | DuplicateAccount       // "An account with this name already exists ..."
    | CreationFailed         // "Error creating account. Please try again."

  /** What the sign-up and sign-in screens hold while the user types. */
  datatype Forms = Forms(
    form: SignUpForm,
    otherSchool: string,
    showOtherSchoolSurvey: bool,
    needsPassword: bool,
    password: string,
    confirmPassword: string,
    signInName: string,
    signInPassword: string)

  /** What the chat view holds: the channel list, the cached logs, the
      presence list and the two input boxes. */
  datatype Chat = Chat(
    activeChannel: string,
    messages: map<string, seq<Message>>,
    messageInput: string,
    onlineUsers: seq<string>,
    channels: seq<Channel>,
    newChannelName: string,
    showCreateChannel: bool)

  /** The whole client: the session, the notice shown on the sign-in and
      sign-up screens, the forms and the chat view. */
  datatype Client = Client(
    loggedIn: bool,
    currentUser: Option<Account>,
    error: Option<AuthError>,
    forms: Forms,
    chat: Chat)

  /** A handler's effect: the client afterwards and the store afterwards. */
  datatype Step = Step(client: Client, store: Store)

  const DefaultChannels: seq<Channel> := [
    Channel("general", "general", "\U{1F4AC}"),
    Channel("homework-help", "homework-help", "\U{1F4DA}"),
    Channel("off-topic", "off-topic", "\U{1F3AE}"),
    Channel("announcements", "announcements", "\U{1F4E2}"),
    Channel("study-groups", "study-groups", "\U{1F465}")
  ]

  const EmptyForms: Forms := Forms(EmptyForm, "", false, false, "", "", "", "")

  /** The state the component mounts with. */
  const Initial: Client := Client(
    false, None, None, EmptyForms,
    Chat("general", map[], "", [], DefaultChannels, "", false))

  /** The component mounts signed out with nothing to report, on the first of
      five channels whose ids are distinct and equal to their names. */
  lemma InitialState()
    ensures !Initial.loggedIn && Initial.currentUser.None? && Initial.error.None?
    ensures |Initial.chat.channels| == 5 && Initial.chat.channels == DefaultChannels
    ensures Initial.chat.activeChannel == DefaultChannels[0].id == "general"
    ensures Initial.chat.activeChannel in ChannelIds(Initial.chat.channels)
    ensures forall i, j :: 0 <= i < j < |DefaultChannels| ==> DefaultChannels[i].id != DefaultChannels[j].id
    ensures forall i :: 0 <= i < |DefaultChannels| ==> DefaultChannels[i].id == DefaultChannels[i].name
    ensures Initial.chat.messages == map[] && Initial.chat.onlineUsers == []
  {
  }

  /** The name of the signed-in user. */
  function Me(c: Client): string
    requires c.currentUser.Some?
  {
    c.currentUser.value.name
  }

  /** `messages[channel] || []`: the locally cached log of a channel. */
  function CachedLog(c: Chat, channel: string): seq<Message> {
    if channel in c.messages then c.messages[channel] else []
  }

  /** The ids of the channels the client knows of. */
  function ChannelIds(channels: seq<Channel>): set<string> {
    set i | 0 <= i < |channels| :: channels[i].id
  }
}
