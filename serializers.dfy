/** backend/tasks_app/serializers.py: how a `Task` row becomes the JSON the
    client receives, how a POSTed task becomes a row, and the registration
    checks. */
module Serializers {
  import opened Wrappers
  import Fields
  import Models
  import TaskJson

  function StatusName(s: Models.Status): string
  {
    match s
    case Pending => TaskJson.Pending
    case Completed => TaskJson.Completed
  }

  function PriorityName(p: Models.Priority): string
  {
    match p
    case Low => "low"
    case Medium => "medium"
    case High => "high"
  }

  function RecurrenceName(r: Models.Recurrence): string
  {
    match r
    case NoRepeat => "none"
    case Daily => "daily"
    case Weekly => "weekly"
    case Monthly => "monthly"
  }

  /** The status names are those the client compares against, and they are
      told apart. */
  lemma StatusNames(s: Models.Status)
    ensures StatusName(s) == TaskJson.Completed <==> s == Models.Completed
    ensures StatusName(s) == TaskJson.Pending <==> s == Models.Pending
  {
  }

  /** `TaskSerializer` output. Its field list exposes id, owner, title,
      description, status, priority, deadline, category, recurrence, labels
      and the two timestamps; `order`, `is_recurring`, `parent_task` and the
      derived `days_until_deadline` and `status_label` are not in it. The
      owner stands here for the nested user object by its id, and the nested
      labels are not modelled. */
  function Serialize(t: Models.Task): (j: TaskJson.Task)
    ensures j.daysUntilDeadline.None? && j.statusLabel.None?
    ensures j.id == t.id && j.user == t.user && j.title == t.title && j.description == t.description
    ensures j.deadline == t.deadline && j.category == t.category
    ensures j.createdAt == t.createdAt && j.updatedAt == Some(t.updatedAt)
    ensures (j.status == TaskJson.Completed) == (t.status == Models.Completed)
    ensures (j.status == TaskJson.Pending) == (t.status == Models.Pending)
    ensures j.priority == PriorityName(t.priority) && j.recurrence == RecurrenceName(t.recurrence)
  {
    StatusNames(t.status);
    TaskJson.Task(t.id, t.user, t.title, t.description, StatusName(t.status),
      PriorityName(t.priority), t.deadline, t.category, RecurrenceName(t.recurrence),
      t.createdAt, Some(t.updatedAt), None, None)
  }

  /** The priority and recurrence names are the choice keys of the model,
      one per value. */
  lemma ChoiceNames(p: Models.Priority, q: Models.Priority, a: Models.Recurrence, b: Models.Recurrence)
    ensures PriorityName(p) in {"low", "medium", "high"}
    ensures RecurrenceName(a) in {"none", "daily", "weekly", "monthly"}
    ensures PriorityName(p) == PriorityName(q) <==> p == q
    ensures RecurrenceName(a) == RecurrenceName(b) <==> a == b
  {
  }

  function SerializeAll(s: seq<Models.Task>): (r: seq<TaskJson.Task>)
    ensures |r| == |s|
    ensures forall i :: 0 <= i < |s| ==> r[i] == Serialize(s[i])
  {
    if s == [] then [] else [Serialize(s[0])] + SerializeAll(s[1..])
  }

  /** The body of a task POST. `user`, `createdAt` and `updatedAt` may be
      sent but are read-only. */
  datatype TaskInput = TaskInput(
    title: Option<string>,
    description: Option<string>,
    status: Option<Models.Status>,
    priority: Option<Models.Priority>,
    deadline: Option<int>,
    category: Option<string>,
    recurrence: Option<Models.Recurrence>,
    user: Option<int>,
    createdAt: Option<int>,
    updatedAt: Option<int>)

  /** The first error DRF reports for a field. */
  datatype FieldError = Required | Blank | TooLong | NotAChoice

  /** A validated row, or the errors keyed by field name. */
  datatype Result<T> = Ok(value: T) | Invalid(errors: map<string, FieldError>)

  /** `title = CharField(max_length=200)` */
  const TitleMaxLength: nat := 200

  /** The keys of `CATEGORY_CHOICES`. */
  const Categories: set<string> := {"Math", "Science", "History", "Literature", "Languages", "Programming", "Other"}

  /** The title field: required, and not blank and at most 200 characters
      once stripped. */
  function TitleError(title: Option<string>): Option<FieldError>
  {
    match title
    case None => Some(Required)
    case Some(s) =>
      if Fields.Strip(s) == [] then Some(Blank)
      else if |Fields.Strip(s)| > TitleMaxLength then Some(TooLong)
      else None
  }

  /** The category field is a choice field that allows blanks; a choice
      field does not strip. */
  function CategoryError(category: Option<string>): Option<FieldError>
  {
    match category
    case Some(c) => if c == "" || c in Categories then None else Some(NotAChoice)
    case None => None
  }

  function CreateErrors(input: TaskInput): map<string, FieldError>
  {
    (if TitleError(input.title).Some? then map["title" := TitleError(input.title).value] else map[])
    + (if CategoryError(input.category).Some? then map["category" := CategoryError(input.category).value] else map[])
  }

  /** The title is in error exactly when it is missing, blank once
      stripped, or longer than 200 characters once stripped. */
  lemma TitleErrorCases(title: Option<string>)
    ensures TitleError(title) == Some(Required) <==> title.None?
    ensures TitleError(title) == Some(Blank) <==> title.Some? && Fields.AllSpace(title.value)
    ensures TitleError(title) == Some(TooLong)
        <==> title.Some? && |Fields.Strip(title.value)| > TitleMaxLength
    ensures TitleError(title).None?
        <==> title.Some? && Fields.Strip(title.value) != [] && |Fields.Strip(title.value)| <= TitleMaxLength
  {
  }

  /** `is_valid()` followed by `TaskSerializer.create`: the field checks
      first; then the owner is the requesting user, the texts are stored
      stripped, and the other writable fields come from the input or their
      declared defaults. */
  function CreateTask(input: TaskInput, requestUser: int, id: int, now: int): (r: Result<Models.Task>)
    ensures r.Invalid? <==> TitleError(input.title).Some? || CategoryError(input.category).Some?
    ensures r.Invalid? ==> r.errors.Keys <= {"title", "category"}
    ensures r.Invalid? ==> ("title" in r.errors <==> TitleError(input.title).Some?)
    ensures r.Invalid? && "title" in r.errors ==> r.errors["title"] == TitleError(input.title).value
    ensures r.Invalid? ==> ("category" in r.errors <==> CategoryError(input.category).Some?)
    ensures r.Invalid? && "category" in r.errors ==> r.errors["category"] == NotAChoice
    ensures r.Ok? ==> r.value.user == requestUser && r.value.id == id
    ensures r.Ok? ==> r.value.createdAt == now && r.value.updatedAt == now
    ensures r.Ok? ==> r.value.title == Fields.Strip(input.title.value)
    ensures r.Ok? ==> r.value.description == Fields.Strip(input.description.GetOr(""))
    ensures r.Ok? ==> r.value.deadline == input.deadline
    ensures r.Ok? ==> r.value.status == input.status.GetOr(Models.Pending)
    ensures r.Ok? ==> r.value.priority == input.priority.GetOr(Models.Medium)
    ensures r.Ok? ==> r.value.category == input.category.GetOr(Models.DefaultCategory)
    ensures r.Ok? ==> r.value.recurrence == input.recurrence.GetOr(Models.NoRepeat)
    ensures r.Ok? ==> r.value.order == 0 && !r.value.isRecurring && r.value.parentTask.None?
  {
    if TitleError(input.title).Some? || CategoryError(input.category).Some? then
      Invalid(CreateErrors(input))
    else
      Ok(Models.Task(id, requestUser, Fields.Strip(input.title.value), Fields.Strip(input.description.GetOr("")),
        input.status.GetOr(Models.Pending), input.priority.GetOr(Models.Medium),
        input.deadline, input.category.GetOr(Models.DefaultCategory),
        input.recurrence.GetOr(Models.NoRepeat), false, None, 0, now, now))
  }

  /** The read-only fields of the input have no effect on the row. */
  lemma CreateIgnoresReadOnly(a: TaskInput, b: TaskInput, requestUser: int, id: int, now: int)
    requires a.(user := b.user, createdAt := b.createdAt, updatedAt := b.updatedAt) == b
    ensures CreateTask(a, requestUser, id, now) == CreateTask(b, requestUser, id, now)
  {
  }

  /** A stored title is never blank, at most 200 characters long, and has
      no white space at either end. */
  lemma StoredTitleClean(input: TaskInput, requestUser: int, id: int, now: int)
    requires CreateTask(input, requestUser, id, now).Ok?
    ensures var t := CreateTask(input, requestUser, id, now).value.title;
      t != [] && |t| <= TitleMaxLength && !Fields.IsSpace(t[0]) && !Fields.IsSpace(t[|t| - 1])
  {
    AcceptedTitleClean(input.title);
  }

  lemma AcceptedTitleClean(title: Option<string>)
    requires TitleError(title).None?
    ensures var t := Fields.Strip(title.value);
      t != [] && |t| <= TitleMaxLength && !Fields.IsSpace(t[0]) && !Fields.IsSpace(t[|t| - 1])
  {
  }

  /** White space around the title changes nothing about the created row. */
  lemma CreatePaddedTitle(input: TaskInput, pad: string, pad2: string, requestUser: int, id: int, now: int)
    requires input.title.Some? && Fields.AllSpace(pad) && Fields.AllSpace(pad2)
    ensures CreateTask(input.(title := Some(pad + input.title.value + pad2)), requestUser, id, now)
         == CreateTask(input, requestUser, id, now)
  {
    Fields.StripPaddedAny(pad, input.title.value, pad2);
    CreateSameCleaned(input.(title := Some(pad + input.title.value + pad2)), input, requestUser, id, now);
  }

  /** Posting a created row's own texts again creates the same row. */
  lemma CreateRoundTrip(input: TaskInput, requestUser: int, id: int, now: int)
    requires CreateTask(input, requestUser, id, now).Ok?
    ensures var t := CreateTask(input, requestUser, id, now).value;
      CreateTask(input.(title := Some(t.title), description := Some(t.description)), requestUser, id, now)
        == CreateTask(input, requestUser, id, now)
  {
    var t := CreateTask(input, requestUser, id, now).value;
    Fields.StripIdempotent(input.title.value);
    Fields.StripIdempotent(input.description.GetOr(""));
    CreateSameCleaned(input.(title := Some(t.title), description := Some(t.description)), input, requestUser, id, now);
  }

  /** Creation sees the texts only once stripped. */
  lemma CreateSameCleaned(a: TaskInput, b: TaskInput, requestUser: int, id: int, now: int)
    requires a.title.Some? && b.title.Some? && Fields.Strip(a.title.value) == Fields.Strip(b.title.value)
    requires Fields.Strip(a.description.GetOr("")) == Fields.Strip(b.description.GetOr(""))
    requires a.(title := b.title, description := b.description) == b
    ensures CreateTask(a, requestUser, id, now) == CreateTask(b, requestUser, id, now)
  {
    assert TitleError(a.title) == TitleError(b.title);
    assert CategoryError(a.category) == CategoryError(b.category);
    if TitleError(b.title).Some? || CategoryError(b.category).Some? {
      assert CreateErrors(a) == CreateErrors(b);
    }
  }

  /** What a new task looks like to the client. */
  lemma CreatedTaskAsSeen(input: TaskInput, requestUser: int, id: int, now: int)
    requires CreateTask(input, requestUser, id, now).Ok?
    ensures var j := Serialize(CreateTask(input, requestUser, id, now).value);
      j.user == requestUser && j.title == Fields.Strip(input.title.value)
      && j.status == (if input.status == Some(Models.Completed) then TaskJson.Completed else TaskJson.Pending)
      && j.daysUntilDeadline.None?
  {
  }

  // Registration

  /** The four fields of a registration body, as sent. */
  datatype RegisterData = RegisterData(username: string, email: string, password: string, password2: string)

  /** The outcome of validation: the cleaned data, or the set of fields
      with an error. */
  datatype Validation = Valid(data: RegisterData) | Errors(fields: set<string>)

  const MinPasswordLength: nat := 8

  /** `User.username = CharField(max_length=150)` */
  const UsernameMaxLength: nat := 150

  /** The characters `UnicodeUsernameValidator` allows (`[\w.@+-]`), for
      ASCII: letters, digits and `_ . @ + -`. */
  predicate IsUsernameChar(c: char)
  {
    ('a' <= c <= 'z') || ('A' <= c <= 'Z') || ('0' <= c <= '9') ||
    c == '_' || c == '.' || c == '@' || c == '+' || c == '-'
  }

  /** A stripped username passes the field: not blank, at most 150
      characters, only username characters, and not an existing user's
      (the `UniqueValidator` the model's `unique=True` brings). */
  predicate UsernameOk(u: string, taken: set<string>)
  {
    u != [] && |u| <= UsernameMaxLength && (forall i :: 0 <= i < |u| ==> IsUsernameChar(u[i])) && u !in taken
  }

  /** Every field is a `CharField`, so every value is stripped before it is
      checked or returned. */
  function Cleaned(d: RegisterData): (c: RegisterData)
  {
    RegisterData(Fields.Strip(d.username), Fields.Strip(d.email), Fields.Strip(d.password), Fields.Strip(d.password2))
  }

  /** The field checks, which run before `validate`: the username rules,
      the email format (`User.email` may be blank; `isEmail` is Django's
      `EmailValidator`), and the `min_length=8` of the two passwords, which
      a blank password also fails. */
  function FieldErrors(d: RegisterData, taken: set<string>, isEmail: string -> bool): set<string>
  {
    var c := Cleaned(d);
    (if !UsernameOk(c.username, taken) then {"username"} else {})
    + (if c.email != [] && !isEmail(c.email) then {"email"} else {})
    + (if |c.password| < MinPasswordLength then {"password"} else {})
    + (if |c.password2| < MinPasswordLength then {"password2"} else {})
  }

  /** `RegisterSerializer.validate`, on the cleaned data. */
  function Validate(d: RegisterData): (v: Validation)
    ensures d.password != d.password2 ==> v == Errors({"password"})
    ensures d.password == d.password2 ==> v == Valid(d)
  {
    if d.password != d.password2 then Errors({"password"}) else Valid(d)
  }

  /** `is_valid()`: field checks first, `validate` only when they pass. */
  function IsValid(d: RegisterData, taken: set<string>, isEmail: string -> bool): Validation
  {
    var fe := FieldErrors(d, taken, isEmail);
    if fe != {} then Errors(fe) else Validate(Cleaned(d))
  }

  /** Registration data is accepted exactly when the stripped username is
      free and well formed, the stripped email is blank or well formed, and
      the stripped passwords are equal and at least eight characters long;
      the stripped data is then returned. Passing field checks with
      differing passwords give exactly the "password" error. */
  lemma IsValidCharacterized(d: RegisterData, taken: set<string>, isEmail: string -> bool)
    ensures var c := Cleaned(d);
      IsValid(d, taken, isEmail).Valid? <==>
        UsernameOk(c.username, taken) && (c.email == [] || isEmail(c.email))
        && c.password == c.password2 && |c.password| >= MinPasswordLength
    ensures IsValid(d, taken, isEmail).Valid? ==> IsValid(d, taken, isEmail).data == Cleaned(d)
    ensures FieldErrors(d, taken, isEmail) == {} && Cleaned(d).password != Cleaned(d).password2
      ==> IsValid(d, taken, isEmail) == Errors({"password"})
  {
    FieldChecksPass(d, taken, isEmail);
  }

  /** The field checks pass exactly when each field's own rule holds. */
  lemma FieldChecksPass(d: RegisterData, taken: set<string>, isEmail: string -> bool)
    ensures var c := Cleaned(d);
      FieldErrors(d, taken, isEmail) == {} <==>
        UsernameOk(c.username, taken) && (c.email == [] || isEmail(c.email))
        && |c.password| >= MinPasswordLength && |c.password2| >= MinPasswordLength
  {
    var c := Cleaned(d);
    var fe := FieldErrors(d, taken, isEmail);
    assert !UsernameOk(c.username, taken) ==> "username" in fe;
    assert c.email != [] && !isEmail(c.email) ==> "email" in fe;
    assert |c.password| < MinPasswordLength ==> "password" in fe;
    assert |c.password2| < MinPasswordLength ==> "password2" in fe;
  }

  datatype NewUser = NewUser(username: string, email: string, password: string)

  /** `RegisterSerializer.create`: `password2` is removed and the rest goes
      to `create_user`. */
  function CreateUser(d: RegisterData): (u: NewUser)
    ensures u.username == d.username && u.email == d.email && u.password == d.password
  {
    NewUser(d.username, d.email, d.password)
  }

  /** The HTTP status of `RegisterView.register`. */
  function RegisterStatus(d: RegisterData, taken: set<string>, isEmail: string -> bool): (code: int)
    ensures code == 201 <==> IsValid(d, taken, isEmail).Valid?
    ensures code == 201 || code == 400
  {
    if IsValid(d, taken, isEmail).Valid? then 201 else 400
  }

  /** Once a registration went through, registering the same username
      again, with or without white space around it, is refused. */
  lemma RegisterTwice(d: RegisterData, e: RegisterData, taken: set<string>, isEmail: string -> bool)
    requires IsValid(d, taken, isEmail).Valid?
    requires Fields.Strip(e.username) == Fields.Strip(d.username)
    ensures RegisterStatus(e, taken + {CreateUser(IsValid(d, taken, isEmail).data).username}, isEmail) == 400
  {
    IsValidCharacterized(d, taken, isEmail);
    TakenRefused(e, taken + {CreateUser(IsValid(d, taken, isEmail).data).username}, isEmail);
  }

  /** A username already taken fails the username field. */
  lemma TakenRefused(e: RegisterData, taken: set<string>, isEmail: string -> bool)
    requires Fields.Strip(e.username) in taken
    ensures RegisterStatus(e, taken, isEmail) == 400
  {
    assert "username" in FieldErrors(e, taken, isEmail);
  }
}
