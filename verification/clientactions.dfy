/** The `createClient` server action: read and trim the submitted fields,
    require a name, then build the client record that is written to the
    store, with every empty optional field stored as null. */
module ClientActions {
  import opened Wrappers
  import opened JsString
  import opened Forms

  const NameKey := "name"
  const PrimaryContactNameKey := "primaryContactName"
  const EmailKey := "email"
  const PhoneKey := "phone"
  const AddressKey := "address"
  const NotesKey := "notes"

  datatype ClientStatus = Active | Inactive | Archived

  datatype Client = Client(
    name: string,
    status: ClientStatus,
    primaryContactName: Option<string>,
    email: Option<string>,
    phone: Option<string>,
    address: Option<string>,
    notes: Option<string>)

  /** The one error `createClient` throws. */
  datatype ClientError = NameRequired {
    function Message(): string {
      "Client name is required."
    }
  }

  /** The shape of every client `createClient` builds. */
  predicate IsNewClient(c: Client) {
    && IsPresent(c.name)
    && c.status == Active
    && IsStoredOptional(c.primaryContactName)
    && IsStoredOptional(c.email)
    && IsStoredOptional(c.phone)
    && IsStoredOptional(c.address)
    && IsStoredOptional(c.notes)
  }

  /** `createClient`: either the client record to be written, or the error
      thrown before anything is written. Only a name that is absent or all
      white space is refused. */
  function CreateClient(form: Form): (r: Result<Client, ClientError>)
    ensures r.Failure? <==> AllWhitespace(Raw(form, NameKey))
    ensures r.Failure? ==> r.error == NameRequired
    ensures r.Failure? ==> r.error.Message() == "Client name is required."
    ensures r.Success? ==> IsNewClient(r.value)
    ensures r.Success? ==>
      && r.value.name == Field(form, NameKey)
      && r.value.primaryContactName == OrNull(Field(form, PrimaryContactNameKey))
      && r.value.email == OrNull(Field(form, EmailKey))
      && r.value.phone == OrNull(Field(form, PhoneKey))
      && r.value.address == OrNull(Field(form, AddressKey))
      && r.value.notes == OrNull(Field(form, NotesKey))
  {
    FieldEmptyIff(form, NameKey);
    var name := Field(form, NameKey);
    var primaryContactName := Field(form, PrimaryContactNameKey);
    var email := Field(form, EmailKey);
    var phone := Field(form, PhoneKey);
    var address := Field(form, AddressKey);
    var notes := Field(form, NotesKey);
    if name == [] then Failure(NameRequired)
    else
      Success(Client(
        name,
        Active,
        OrNull(primaryContactName),
        OrNull(email),
        OrNull(phone),
        OrNull(address),
        OrNull(notes)))
  }

  /** The optional fields never cause an error: whatever is submitted for
      one of them, the outcome succeeds or fails as before, and on success
      the name and status do not change. */
  lemma OptionalFieldsNeverFail(form: Form, key: string, value: string)
    requires key != NameKey
    ensures CreateClient(form[key := value]).Success? == CreateClient(form).Success?
    ensures CreateClient(form).Success? ==>
      && CreateClient(form[key := value]).value.name == CreateClient(form).value.name
      && CreateClient(form[key := value]).value.status == CreateClient(form).value.status
  {
    assert Raw(form[key := value], NameKey) == Raw(form, NameKey);
  }

  /** `createClient` sees a form only through its trimmed fields. */
  lemma CreateClientReadsFieldsOnly(f1: Form, f2: Form)
    requires SameFields(f1, f2)
    ensures CreateClient(f1) == CreateClient(f2)
  {
    assert Field(f1, NameKey) == Field(f2, NameKey);
    assert Field(f1, PrimaryContactNameKey) == Field(f2, PrimaryContactNameKey);
    assert Field(f1, EmailKey) == Field(f2, EmailKey);
    assert Field(f1, PhoneKey) == Field(f2, PhoneKey);
    assert Field(f1, AddressKey) == Field(f2, AddressKey);
    assert Field(f1, NotesKey) == Field(f2, NotesKey);
  }

  /** A field left out of the form behaves as if it had been submitted empty. */
  lemma CreateClientMissingFieldIsEmpty(form: Form, key: string)
    requires key !in form
    ensures CreateClient(form[key := ""]) == CreateClient(form)
  {
    MissingFieldReadsEmpty(form, key);
    CreateClientReadsFieldsOnly(form[key := ""], form);
  }

  /** White space around any submitted value changes nothing. */
  lemma CreateClientIgnoresPadding(form: Form, key: string, p: string, q: string)
    requires key in form
    requires AllWhitespace(p) && AllWhitespace(q)
    ensures CreateClient(form[key := p + form[key] + q]) == CreateClient(form)
  {
    PaddedFieldReadsSame(form, key, p, q);
    CreateClientReadsFieldsOnly(form[key := p + form[key] + q], form);
  }

  /** The form that submits a client's fields, null written as the empty string. */
  function ClientForm(c: Client): Form {
    map[
      NameKey := c.name,
      PrimaryContactNameKey := OrEmpty(c.primaryContactName),
      EmailKey := OrEmpty(c.email),
      PhoneKey := OrEmpty(c.phone),
      AddressKey := OrEmpty(c.address),
      NotesKey := OrEmpty(c.notes)]
  }

  /** Every client of the shape `createClient` builds is rebuilt exactly
      from the form that submits its fields. */
  lemma ClientFormRoundTrip(c: Client)
    requires IsNewClient(c)
    ensures CreateClient(ClientForm(c)) == Success(c)
  {
    var form := ClientForm(c);
    assert Raw(form, NameKey) == c.name;
    FieldOfTrimmed(form, NameKey);
    assert Raw(form, PrimaryContactNameKey) == OrEmpty(c.primaryContactName);
    FieldOfTrimmed(form, PrimaryContactNameKey);
    OrNullUndoesOrEmpty(c.primaryContactName);
    assert Raw(form, EmailKey) == OrEmpty(c.email);
    FieldOfTrimmed(form, EmailKey);
    OrNullUndoesOrEmpty(c.email);
    assert Raw(form, PhoneKey) == OrEmpty(c.phone);
    FieldOfTrimmed(form, PhoneKey);
    OrNullUndoesOrEmpty(c.phone);
    assert Raw(form, AddressKey) == OrEmpty(c.address);
    FieldOfTrimmed(form, AddressKey);
    OrNullUndoesOrEmpty(c.address);
    assert Raw(form, NotesKey) == OrEmpty(c.notes);
    FieldOfTrimmed(form, NotesKey);
    OrNullUndoesOrEmpty(c.notes);
  }
}
