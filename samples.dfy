/**
 * The sample "Users" domain: a CreateUser command with two validators (no
 * duplicate user, a display name is required), one executor that emits a
 * UserCreated event, and one handler that builds the User projection.
 */
module Users {
  import opened EventSourcing

  /** The fields of a CreateUser command; an absent display name is None. */
  datatype CreateUserFields = CreateUserFields(password: string, displayName: Option<string>)

  /** The fields of a UserCreated event. */
  datatype UserCreatedFields = UserCreatedFields(displayName: Option<string>, passwordHash: string, passwordSalt: string)

  /** A User projection has no fields beyond tag, id and version. */
  type UserFields = ()

  type UserCommand = Command<CreateUserFields>
  type UserEvent = Event<UserCreatedFields>
  type UserState = Option<ReadModel<UserFields>>

  const UserAlreadyExistsMessage := "This cannot be created as it already exists"
  const DisplayNameRequiredMessage := "Please provide a display name for this user"
  const PasswordSalt := "somesalt"

  function UserAlreadyExists(command: UserCommand): (x: InvalidCommand<CreateUserFields>)
    ensures x.tag == "UserAlreadyExists" && x.command == command && x.message == UserAlreadyExistsMessage
  {
    InvalidCommand("UserAlreadyExists", command, UserAlreadyExistsMessage)
  }

  function DisplayNameRequired(command: UserCommand): (x: InvalidCommand<CreateUserFields>)
    ensures x.tag == "DisplayNameRequired" && x.command == command && x.message == DisplayNameRequiredMessage
  {
    InvalidCommand("DisplayNameRequired", command, DisplayNameRequiredMessage)
  }

  function CreateUser(id: string, password: string, displayName: Option<string>): (c: UserCommand)
    ensures c.tag == "CreateUser" && c.id == id && c.expectedVersion.None?
    ensures c.fields.password == password && c.fields.displayName == displayName
  {
    Command("CreateUser", id, None, CreateUserFields(password, displayName))
  }

  /**
   * The event for an accepted CreateUser. The id is passed explicitly, in place
   * of the source's copying of properties by name; that copying only writes
   * properties the event object already has when it runs, so it carries over
   * neither the display name nor the id, and the id then comes from the
   * engine's stamp. The display name stays absent.
   */
  function UserCreated(create: UserCommand, passwordSalt: string): (e: UserEvent)
    ensures e.tag == "UserCreated" && e.id == create.id && e.version == 0
    ensures e.fields.passwordHash == create.fields.password + passwordSalt
    ensures e.fields.passwordSalt == passwordSalt
  {
    DomainEvent("UserCreated", create.id, UserCreatedFields(None, create.fields.password + passwordSalt, passwordSalt))
  }

  function User(created: UserEvent): (u: ReadModel<UserFields>)
    ensures u.tag == "User" && u.id == created.id && u.version == created.version
  {
    ReadModel("User", created.id, created.version, ())
  }

  // ---------------------------------------------------------------------------
  // Trimming, as String.prototype.trim does it

  /** ECMAScript white space and line terminators (the space separators are listed by code point). */
  predicate IsWhitespace(c: char)
  {
    || c == '\t' || c == '\n' || c == '\U{000B}' || c == '\U{000C}' || c == '\r'
    || c == ' ' || c == '\U{00A0}' || c == '\U{1680}'
    || ('\U{2000}' <= c <= '\U{200A}')
    || c == '\U{2028}' || c == '\U{2029}' || c == '\U{202F}' || c == '\U{205F}'
    || c == '\U{3000}' || c == '\U{FEFF}'
  }

  /** Drops leading white space: the result is a suffix whose first character is not white space. */
  function TrimStart(s: string): (r: string)
    ensures |r| <= |s| && r == s[|s| - |r|..]
    ensures forall i :: 0 <= i < |s| - |r| ==> IsWhitespace(s[i])
    ensures |r| > 0 ==> !IsWhitespace(r[0])
    decreases |s|
  {
    if |s| > 0 && IsWhitespace(s[0]) then TrimStart(s[1..]) else s
  }

  /** Drops trailing white space: the result is a prefix whose last character is not white space. */
  function TrimEnd(s: string): (r: string)
    ensures |r| <= |s| && r == s[..|r|]
    ensures forall i :: |r| <= i < |s| ==> IsWhitespace(s[i])
    ensures |r| > 0 ==> !IsWhitespace(r[|r| - 1])
    decreases |s|
  {
    if |s| > 0 && IsWhitespace(s[|s| - 1]) then TrimEnd(s[..|s| - 1]) else s
  }

  function Trim(s: string): string
  {
    TrimEnd(TrimStart(s))
  }

  /** A string trims to nothing exactly when all of it is white space. */
  lemma TrimBlankIff(s: string)
    ensures |Trim(s)| == 0 <==> forall i :: 0 <= i < |s| ==> IsWhitespace(s[i])
  {
    var t := TrimStart(s);
    assert |Trim(s)| == 0 ==> |t| == 0;
  }

  // ---------------------------------------------------------------------------
  // The registry

  function RejectDuplicate(state: UserState, create: UserCommand): (r: Option<InvalidCommand<CreateUserFields>>)
    ensures r.Some? <==> state.Some?
    ensures r.Some? ==> r.value == UserAlreadyExists(create)
  {
    if state.Some? then Some(UserAlreadyExists(create)) else None
  }

  /** The display name, or the empty string when it is absent. */
  function DisplayNameOrEmpty(create: UserCommand): string
  {
    if create.fields.displayName.Some? then create.fields.displayName.value else ""
  }

  function RequireDisplayName(state: UserState, create: UserCommand): (r: Option<InvalidCommand<CreateUserFields>>)
    ensures r.Some? <==> forall i :: 0 <= i < |DisplayNameOrEmpty(create)| ==> IsWhitespace(DisplayNameOrEmpty(create)[i])
    ensures r.Some? ==> r.value == DisplayNameRequired(create)
  {
    var name := DisplayNameOrEmpty(create);
    TrimBlankIff(name);
    if |Trim(name)| == 0 then Some(DisplayNameRequired(create)) else None
  }

  /** Emits exactly one UserCreated event, whose password hash is the password followed by the salt. */
  function EmitUserCreated(state: UserState, create: UserCommand): (es: seq<UserEvent>)
    ensures |es| == 1 && es[0].tag == "UserCreated" && es[0].id == create.id
    ensures es[0].fields.passwordHash == create.fields.password + "somesalt"
  {
    [UserCreated(create, PasswordSalt)]
  }

  /** Builds a User projection carrying the event's id and version. */
  function ApplyUserCreated(state: UserState, created: UserEvent): (u: ReadModel<UserFields>)
    ensures u.tag == "User" && u.id == created.id && u.version == created.version
  {
    User(created)
  }

  const UserAggregate: Aggregate<CreateUserFields, UserCreatedFields, UserFields> := Aggregate(
    map["CreateUser" := [RejectDuplicate, RequireDisplayName]],
    map["CreateUser" := [EmitUserCreated]],
    map["UserCreated" := [ApplyUserCreated]])

  // ---------------------------------------------------------------------------
  // Scenarios

  /** The validation of a CreateUser: the duplicate error first, then the display-name error. */
  lemma ValidateCreateUser(state: UserState, create: UserCommand)
    requires create.tag == "CreateUser"
    ensures Validate(ValidatorsFor(UserAggregate, create.tag), state, create)
      == (if state.Some? then [UserAlreadyExists(create)] else [])
       + (if forall i :: 0 <= i < |DisplayNameOrEmpty(create)| ==> IsWhitespace(DisplayNameOrEmpty(create)[i])
          then [DisplayNameRequired(create)] else [])
  {
    var vs := ValidatorsFor(UserAggregate, create.tag);
    assert vs == [RejectDuplicate, RequireDisplayName];
    assert vs[..1] == [RejectDuplicate];
    assert vs[..1][..0] == [];
    assert vs[0](state, create) == RejectDuplicate(state, create);
    assert vs[1](state, create) == RequireDisplayName(state, create);
    assert Validate(vs[..1], state, create) == if state.Some? then [UserAlreadyExists(create)] else [];
  }

  /** Executing a CreateUser whose validators pass, from any state and version. */
  lemma ExecuteCreateUser(r: Run<CreateUserFields, UserCreatedFields, UserFields>, create: UserCommand)
    requires create.tag == "CreateUser"
    ensures var ev := UserCreated(create, PasswordSalt).(version := r.version + 1);
      RunExecutors(UserAggregate, ExecutorsFor(UserAggregate, create.tag), r, create)
        == Run(r.events + [ev], r.failures, Some(User(ev)), r.version + 1)
  {
    var xs := ExecutorsFor(UserAggregate, create.tag);
    assert xs == [EmitUserCreated];
    assert xs[..0] == [];
    var ev := UserCreated(create, PasswordSalt).(version := r.version + 1);
    var stamped := Stamp(EmitUserCreated(r.state, create), create.id, r.version);
    assert stamped == [ev];
    assert RunExecutors(UserAggregate, xs, r, create) == ExecStep(UserAggregate, EmitUserCreated, r, create);
    assert HandlersFor(UserAggregate, ev.tag) == [ApplyUserCreated];
    assert [ev][..0] == [];
    assert [ApplyUserCreated][..0] == [];
    assert ApplyEvent(UserAggregate, r.state, ev) == Some(User(ev));
    assert Replay(UserAggregate, r.state, [ev]) == Some(User(ev));
  }

  /** Creating a user with a non-blank display name against no history succeeds with version 1. */
  lemma CreateScenario(id: string, password: string, name: string)
    requires exists i :: 0 <= i < |name| && !IsWhitespace(name[i])
    ensures var create := CreateUser(id, password, Some(name));
      var ev := UserCreated(create, PasswordSalt).(version := 1);
      && ExecutionResult(UserAggregate, History([]), [create])
           == Success([ev], Some(ReadModel("User", id, 1, ())))
      && ev.id == id && ev.fields.passwordHash == password + "somesalt"
  {
    var create := CreateUser(id, password, Some(name));
    var r0 := Start(UserAggregate, History([]));
    assert r0 == Run([], [], None, 0);
    assert [create][..0] == [];
    ValidateCreateUser(None, create);
    assert Validate(ValidatorsFor(UserAggregate, create.tag), None, create) == [];
    ExecuteCreateUser(r0, create);
    assert RunBatch(UserAggregate, r0, [create]) == Step(UserAggregate, r0, create);
  }

  /** Creating the same user again against its projection fails with one UserAlreadyExists. */
  lemma DuplicateScenario(id: string, password: string, name: string)
    requires exists i :: 0 <= i < |name| && !IsWhitespace(name[i])
    ensures var create := CreateUser(id, password, Some(name));
      ExecutionResult(UserAggregate, Projection(ReadModel("User", id, 1, ())), [create])
        == Failure([UserAlreadyExists(create)])
  {
    var create := CreateUser(id, password, Some(name));
    var r0 := Start(UserAggregate, Projection(ReadModel("User", id, 1, ())));
    assert [create][..0] == [];
    ValidateCreateUser(r0.state, create);
    assert Validate(ValidatorsFor(UserAggregate, create.tag), r0.state, create) == [UserAlreadyExists(create)];
    assert RunBatch(UserAggregate, r0, [create]) == Step(UserAggregate, r0, create);
  }

  /** The same rejection when the first user's event is replayed from the stored history. */
  lemma DuplicateFromHistoryScenario(id: string, password: string, name: string)
    requires exists i :: 0 <= i < |name| && !IsWhitespace(name[i])
    ensures var create := CreateUser(id, password, Some(name));
      var ev := UserCreated(create, PasswordSalt).(version := 1);
      ExecutionResult(UserAggregate, History([ev]), [create]) == Failure([UserAlreadyExists(create)])
  {
    var create := CreateUser(id, password, Some(name));
    var ev := UserCreated(create, PasswordSalt).(version := 1);
    assert [ev][..0] == [];
    assert HandlersFor(UserAggregate, ev.tag) == [ApplyUserCreated];
    assert [ApplyUserCreated][..0] == [];
    var s := InitialState(UserAggregate, History([ev]));
    assert s == Some(User(ev));
    var r0 := Start(UserAggregate, History([ev]));
    assert [create][..0] == [];
    ValidateCreateUser(s, create);
    assert Validate(ValidatorsFor(UserAggregate, create.tag), r0.state, create) == [UserAlreadyExists(create)];
    assert RunBatch(UserAggregate, r0, [create]) == Step(UserAggregate, r0, create);
  }

  /** On an existing user with a blank display name both validators fire, in registration order. */
  lemma BothValidatorsFire(u: ReadModel<UserFields>, id: string, password: string, displayName: Option<string>)
    requires displayName.None? || forall i :: 0 <= i < |displayName.value| ==> IsWhitespace(displayName.value[i])
    ensures var create := CreateUser(id, password, displayName);
      ExecutionResult(UserAggregate, Projection(u), [create])
        == Failure([UserAlreadyExists(create), DisplayNameRequired(create)])
  {
    var create := CreateUser(id, password, displayName);
    var r0 := Start(UserAggregate, Projection(u));
    assert [create][..0] == [];
    ValidateCreateUser(Some(u), create);
    assert Validate(ValidatorsFor(UserAggregate, create.tag), r0.state, create)
      == [UserAlreadyExists(create), DisplayNameRequired(create)];
    assert RunBatch(UserAggregate, r0, [create]) == Step(UserAggregate, r0, create);
  }
}
