/** The `createJob` server action: read and trim the submitted fields, check
    the required ones in a fixed order, check that the client and the assigned
    user exist, then build the job record that is written to the store.
    The two existence lookups are the sets of known client and user ids. */
module JobActions {
  import opened Wrappers
  import opened JsString
  import opened Forms

  const ClientIdKey := "clientId"
  const TitleKey := "title"
  const DescriptionKey := "description"
  const AssignedUserIdKey := "assignedUserId"
  const ScheduledDateKey := "scheduledDate"
  const DueDateKey := "dueDate"

  datatype JobStatus = Scheduled | InProgress | Completed | Cancelled

  /** `new Date(text)`: the parsed date is left opaque and identified by the
      text it was parsed from. */
  datatype DateValue = DateFrom(text: string)

  datatype Job = Job(
    clientId: string,
    title: string,
    description: Option<string>,
    assignedUserId: string,
    status: JobStatus,
    scheduledDate: Option<DateValue>,
    dueDate: Option<DateValue>)

  /** The errors `createJob` throws, in the order it checks for them. */
  datatype JobError =
    | ClientRequired
    | TitleRequired
    | AssigneeRequired
    | ClientNotFound
    | AssignedUserNotFound
  {
    /** Position of the check raising this error in the order `createJob` checks. */
    function Rank(): nat {
      match this
      case ClientRequired => 0
      case TitleRequired => 1
      case AssigneeRequired => 2
      case ClientNotFound => 3
      case AssignedUserNotFound => 4
    }

    function Message(): string {
      match this
      case ClientRequired => "Client is required."
      case TitleRequired => "Job title is required."
      case AssigneeRequired => "Assignee is required."
      case ClientNotFound => "Client not found."
      case AssignedUserNotFound => "Assigned user not found."
    }
  }

  /** Each thrown text names one check: no two errors share a message. */
  lemma MessagesIdentifyErrors(d: JobError, e: JobError)
    requires d.Message() == e.Message()
    ensures d == e
  {
  }

  /** `raw ? new Date(raw) : null`. */
  function OptionalDate(raw: string): (d: Option<DateValue>)
    ensures d.None? <==> raw == []
    ensures d.Some? ==> d.value.text == raw
  {
    if raw == [] then None else Some(DateFrom(raw))
  }

  /** The shape of every job `createJob` builds: required texts present and
      trimmed, optional texts either null or present, status SCHEDULED. */
  predicate IsNewJob(job: Job) {
    && IsPresent(job.clientId)
    && IsPresent(job.title)
    && IsPresent(job.assignedUserId)
    && IsStoredOptional(job.description)
    && job.status == Scheduled
    && (job.scheduledDate.Some? ==> IsPresent(job.scheduledDate.value.text))
    && (job.dueDate.Some? ==> IsPresent(job.dueDate.value.text))
  }

  /** Whether the check that raises `e` passes on this submission. */
  predicate Passes(e: JobError, form: Form, clients: set<string>, users: set<string>) {
    match e
    case ClientRequired => Field(form, ClientIdKey) != []
    case TitleRequired => Field(form, TitleKey) != []
    case AssigneeRequired => Field(form, AssignedUserIdKey) != []
    case ClientNotFound => Field(form, ClientIdKey) in clients
    case AssignedUserNotFound => Field(form, AssignedUserIdKey) in users
  }

  /** The three required fields are all present after trimming. */
  predicate RequiredFieldsPresent(form: Form) {
    && Field(form, ClientIdKey) != []
    && Field(form, TitleKey) != []
    && Field(form, AssignedUserIdKey) != []
  }

  /** `createJob`: either the job record to be written, or the error thrown
      before anything is written. */
  function CreateJob(form: Form, clients: set<string>, users: set<string>): (r: Result<Job, JobError>)
    ensures r.Success? <==>
      && RequiredFieldsPresent(form)
      && Field(form, ClientIdKey) in clients
      && Field(form, AssignedUserIdKey) in users
    ensures r.Success? ==> IsNewJob(r.value)
    ensures r.Success? ==> r.value.clientId in clients && r.value.assignedUserId in users
    ensures r.Success? ==>
      && r.value.clientId == Field(form, ClientIdKey)
      && r.value.title == Field(form, TitleKey)
      && r.value.assignedUserId == Field(form, AssignedUserIdKey)
      && r.value.description == OrNull(Field(form, DescriptionKey))
      && r.value.scheduledDate == OptionalDate(Field(form, ScheduledDateKey))
      && r.value.dueDate == OptionalDate(Field(form, DueDateKey))
  {
    var clientId := Field(form, ClientIdKey);
    var title := Field(form, TitleKey);
    var description := Field(form, DescriptionKey);
    var assignedUserId := Field(form, AssignedUserIdKey);
    var scheduledDateRaw := Field(form, ScheduledDateKey);
    var dueDateRaw := Field(form, DueDateKey);
    if clientId == [] then Failure(ClientRequired)
    else if title == [] then Failure(TitleRequired)
    else if assignedUserId == [] then Failure(AssigneeRequired)
    else if clientId !in clients then Failure(ClientNotFound)
    else if assignedUserId !in users then Failure(AssignedUserNotFound)
    else
      Success(Job(
        clientId,
        title,
        OrNull(description),
        assignedUserId,
        Scheduled,
        OptionalDate(scheduledDateRaw),
        OptionalDate(dueDateRaw)))
  }

  /** The error thrown is always the one of the first failing check, so a
      missing client id is reported before a missing title, which is reported
      before a missing assignee, and an unknown client before an unknown user. */
  lemma CreateJobReportsFirstFailure(form: Form, clients: set<string>, users: set<string>, e: JobError)
    requires !Passes(e, form, clients, users)
    requires forall d: JobError :: d.Rank() < e.Rank() ==> Passes(d, form, clients, users)
    ensures CreateJob(form, clients, users) == Failure(e)
  {
    if e.Rank() > 0 { assert Passes(ClientRequired, form, clients, users); }
    if e.Rank() > 1 { assert Passes(TitleRequired, form, clients, users); }
    if e.Rank() > 2 { assert Passes(AssigneeRequired, form, clients, users); }
    if e.Rank() > 3 { assert Passes(ClientNotFound, form, clients, users); }
  }

  /** A job is built exactly when every check passes. */
  lemma CreateJobSucceedsIffAllPass(form: Form, clients: set<string>, users: set<string>)
    ensures CreateJob(form, clients, users).Success? <==>
      forall e: JobError :: Passes(e, form, clients, users)
  {
    if !CreateJob(form, clients, users).Success? {
      var failing :=
        if !Passes(ClientRequired, form, clients, users) then ClientRequired
        else if !Passes(TitleRequired, form, clients, users) then TitleRequired
        else if !Passes(AssigneeRequired, form, clients, users) then AssigneeRequired
        else if !Passes(ClientNotFound, form, clients, users) then ClientNotFound
        else AssignedUserNotFound;
      assert !Passes(failing, form, clients, users);
    }
  }

  /** Every required-field check runs before either lookup: while a required
      field is missing, the outcome is the same whatever ids exist. */
  lemma RequiredChecksPrecedeLookups(form: Form, clients1: set<string>, users1: set<string>,
                                     clients2: set<string>, users2: set<string>)
    requires !RequiredFieldsPresent(form)
    ensures CreateJob(form, clients1, users1).Failure?
    ensures CreateJob(form, clients1, users1) == CreateJob(form, clients2, users2)
  {
  }

  /** A job that can be created stays creatable, and unchanged, when more
      clients and users exist. */
  lemma MoreIdsKeepJob(form: Form, clients1: set<string>, users1: set<string>,
                       clients2: set<string>, users2: set<string>)
    requires clients1 <= clients2 && users1 <= users2
    requires CreateJob(form, clients1, users1).Success?
    ensures CreateJob(form, clients2, users2) == CreateJob(form, clients1, users1)
  {
  }

  /** `createJob` sees a form only through its trimmed fields. */
  lemma CreateJobReadsFieldsOnly(f1: Form, f2: Form, clients: set<string>, users: set<string>)
    requires SameFields(f1, f2)
    ensures CreateJob(f1, clients, users) == CreateJob(f2, clients, users)
  {
    assert Field(f1, ClientIdKey) == Field(f2, ClientIdKey);
    assert Field(f1, TitleKey) == Field(f2, TitleKey);
    assert Field(f1, DescriptionKey) == Field(f2, DescriptionKey);
    assert Field(f1, AssignedUserIdKey) == Field(f2, AssignedUserIdKey);
    assert Field(f1, ScheduledDateKey) == Field(f2, ScheduledDateKey);
    assert Field(f1, DueDateKey) == Field(f2, DueDateKey);
  }

  /** A field left out of the form behaves as if it had been submitted empty. */
  lemma CreateJobMissingFieldIsEmpty(form: Form, key: string, clients: set<string>, users: set<string>)
    requires key !in form
    ensures CreateJob(form[key := ""], clients, users) == CreateJob(form, clients, users)
  {
    MissingFieldReadsEmpty(form, key);
    CreateJobReadsFieldsOnly(form[key := ""], form, clients, users);
  }

  /** White space around any submitted value changes nothing. */
  lemma CreateJobIgnoresPadding(form: Form, key: string, p: string, q: string,
                                clients: set<string>, users: set<string>)
    requires key in form
    requires AllWhitespace(p) && AllWhitespace(q)
    ensures CreateJob(form[key := p + form[key] + q], clients, users) == CreateJob(form, clients, users)
  {
    PaddedFieldReadsSame(form, key, p, q);
    CreateJobReadsFieldsOnly(form[key := p + form[key] + q], form, clients, users);
  }

  /** The text a form submits for an optional date: null as "". */
  function DateText(d: Option<DateValue>): string {
    if d.Some? then d.value.text else ""
  }

  /** The form that submits a job's fields, null written as the empty string. */
  function JobForm(job: Job): Form {
    map[
      ClientIdKey := job.clientId,
      TitleKey := job.title,
      DescriptionKey := OrEmpty(job.description),
      AssignedUserIdKey := job.assignedUserId,
      ScheduledDateKey := DateText(job.scheduledDate),
      DueDateKey := DateText(job.dueDate)]
  }

  /** Every job of the shape `createJob` builds, whose client and user exist,
      is rebuilt exactly from the form that submits its fields. */
  lemma JobFormRoundTrip(job: Job, clients: set<string>, users: set<string>)
    requires IsNewJob(job)
    requires job.clientId in clients && job.assignedUserId in users
    ensures CreateJob(JobForm(job), clients, users) == Success(job)
  {
    var form := JobForm(job);
    assert Raw(form, ClientIdKey) == job.clientId;
    FieldOfTrimmed(form, ClientIdKey);
    assert Raw(form, TitleKey) == job.title;
    FieldOfTrimmed(form, TitleKey);
    assert Raw(form, AssignedUserIdKey) == job.assignedUserId;
    FieldOfTrimmed(form, AssignedUserIdKey);
    assert Raw(form, DescriptionKey) == OrEmpty(job.description);
    FieldOfTrimmed(form, DescriptionKey);
    OrNullUndoesOrEmpty(job.description);
    assert Raw(form, ScheduledDateKey) == DateText(job.scheduledDate);
    FieldOfTrimmed(form, ScheduledDateKey);
    assert Raw(form, DueDateKey) == DateText(job.dueDate);
    FieldOfTrimmed(form, DueDateKey);
  }
}
