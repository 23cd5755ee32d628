/** The contact endpoints (class ContactController): each action is a short
    decision procedure over the repository that ends in an HTTP outcome. */
module Controllers {
  import opened Wrappers
  import opened Models
  import opened DTOs
  import opened Helpers
  import opened Mappings
  import Validator
  import opened Repository

  /** The body of a 200 response. */
  datatype OkBody = ContactList(items: seq<ContactListDto>) | ContactDetail(contact: ContactDetailDto)

  /** The outcomes the actions return. BadRequest's per-field errors are produced by the
      framework's validators and are not modelled; Created carries the route value
      `id` of its location (GetById) and the detail view of the new contact. */
  datatype ActionResult =
    | BadRequest
    | Conflict(message: string)
    | Created(id: int, contact: ContactDetailDto)
    | Ok(body: OkBody)
    | NotFound
    | NoContent

  /** The message of the 409 answer to a create with a known email. */
  const DuplicateEmailMessage := "Użytkownik z takim adresem email już istnieje."

  /** The framework's attribute checks, which are library code: [Required] on a
      string, [EmailAddress] and [Phone]. */
  datatype AttributeChecks = AttributeChecks(
    required: string -> bool,
    emailAddress: string -> bool,
    phone: string -> bool)

  /** ModelState.IsValid for a request body: every validation attribute on the DTO
      accepts its field. [Required] on the int and date fields always holds. */
  predicate ModelStateValid(dto: ContactCreateAndUpdateDto, checks: AttributeChecks) {
    && checks.required(dto.name)
    && checks.required(dto.lastName)
    && checks.required(dto.email) && checks.emailAddress(dto.email)
    && checks.required(dto.password) && Validator.IsValid(Validator.Text(dto.password))
    && checks.phone(dto.phoneNumber)
  }

  /** Every stored contact's password passes the strong-password attribute. */
  ghost predicate PasswordsStrong(table: map<int, ContactModel>) {
    forall id :: id in table ==> Validator.IsValid(Validator.Text(table[id].password))
  }

  /** `rows.Select(s => s.ToContactListDto())`. */
  function ToListDtos(rows: seq<ContactModel>): (r: seq<ContactListDto>)
    ensures |r| == |rows|
    ensures forall d :: d in r <==> exists c :: c in rows && d == ToContactListDto(c)
  {
    if rows == [] then [] else [ToContactListDto(rows[0])] + ToListDtos(rows[1..])
  }

  /** Selecting the list views of two runs of rows one after the other gives the
      views of the joined rows. */
  lemma {:induction false} ToListDtosAppend(a: seq<ContactModel>, b: seq<ContactModel>)
    ensures ToListDtos(a + b) == ToListDtos(a) + ToListDtos(b)
  {
    if a == [] {
      assert a + b == b;
    } else {
      assert (a + b)[1..] == a[1..] + b;
      ToListDtosAppend(a[1..], b);
    }
  }

  /** The list view at each position is the view of the row at that position. */
  lemma {:induction false} ToListDtosAt(rows: seq<ContactModel>, i: int)
    requires 0 <= i < |rows|
    ensures ToListDtos(rows)[i] == ToContactListDto(rows[i])
  {
    if i > 0 {
      ToListDtosAt(rows[1..], i - 1);
    }
  }

  class ContactController {
    const repository: ContactRepository

    constructor (repository: ContactRepository)
      ensures this.repository == repository
    {
      this.repository := repository;
    }

    /** GET search: always 200, one list view per matching contact, in store order. */
    method GetAllWithQuery(query: QueryObject) returns (r: ActionResult)
      requires repository.Valid()
      ensures r == Ok(ContactList(ToListDtos(Where(repository.Rows(), MatchesQuery(query)))))
      ensures forall c :: c in repository.Rows() && Keeps(MatchesQuery(query), c) ==>
        ToContactListDto(c) in r.body.items
      ensures forall d :: d in r.body.items ==>
        exists c :: c in repository.Rows() && Keeps(MatchesQuery(query), c) && d == ToContactListDto(c)
    {
      var contacts := repository.GetAllByQueryAsync(query);
      var items := ToListDtos(contacts);
      r := Ok(ContactList(items));
      forall c | c in repository.Rows() && Keeps(MatchesQuery(query), c)
        ensures ToContactListDto(c) in items
      {
        var i :| 0 <= i < |contacts| && contacts[i] == c;
        ToListDtosAt(contacts, i);
      }
      forall d | d in items
        ensures exists c :: c in repository.Rows() && Keeps(MatchesQuery(query), c) && d == ToContactListDto(c)
      {
        var c :| c in contacts && d == ToContactListDto(c);
        assert c in repository.Rows() && Keeps(MatchesQuery(query), c);
      }
    }

    /** GET: always 200, one list view per stored contact, in store order. */
    method GetAll() returns (r: ActionResult)
      requires repository.Valid()
      ensures r == Ok(ContactList(ToListDtos(repository.Rows())))
      ensures |r.body.items| == |repository.contacts|
      ensures forall id :: id in repository.contacts ==>
        ToContactListDto(repository.contacts[id]) in r.body.items
    {
      var contacts := repository.GetAllAsync();
      var items := ToListDtos(contacts);
      r := Ok(ContactList(items));
      forall id | id in repository.contacts
        ensures ToContactListDto(repository.contacts[id]) in items
      {
        assert repository.contacts[id] in repository.contacts.Values;
        assert repository.contacts[id] in contacts;
      }
    }

    /** GET {id}: 404 when no contact has the id, otherwise 200 with its detail view. */
    method GetById(id: int) returns (r: ActionResult)
      requires repository.Valid()
      ensures r.NotFound? <==> id !in repository.contacts
      ensures id in repository.contacts ==>
        && r == Ok(ContactDetail(ToContactDetailDto(repository.contacts[id])))
        && r.body.contact.id == id
      ensures r.NotFound? || r.Ok?
    {
      var kontakt := repository.GetByIdAsync(id);
      if kontakt.None? {
        return NotFound;
      }
      r := Ok(ContactDetail(ToContactDetailDto(kontakt.value)));
    }

    /** POST: 400 on an invalid body and 409 on a known email, both without touching the
        store; otherwise the mapped contact is stored under a new id and 201 returns it. */
    method Create(dto: ContactCreateAndUpdateDto, checks: AttributeChecks) returns (r: ActionResult)
      requires repository.Valid()
      modifies repository
      ensures repository.Valid()
      ensures !ModelStateValid(dto, checks) ==> r == BadRequest && unchanged(repository)
      ensures ModelStateValid(dto, checks) && (exists c :: c in old(repository.Rows()) && c.email == dto.email) ==>
        r == Conflict(DuplicateEmailMessage) && unchanged(repository)
      ensures ModelStateValid(dto, checks) && (forall c :: c in old(repository.Rows()) ==> c.email != dto.email) ==>
        && r.Created?
        && r.id !in old(repository.contacts)
        && repository.contacts == old(repository.contacts)[r.id := ToContactFromCreateDto(dto).(id := r.id)]
        && r.contact == ToContactDetailDto(repository.contacts[r.id])
        && repository.Rows() == old(repository.Rows()) + [repository.contacts[r.id]]
      ensures old(EmailsDistinct(repository.contacts)) ==> EmailsDistinct(repository.contacts)
      ensures old(PasswordsStrong(repository.contacts)) ==> PasswordsStrong(repository.contacts)
    {
      if !ModelStateValid(dto, checks) {
        return BadRequest;
      }
      var taken := repository.ExistsByEmail(dto.email);
      if taken {
        return Conflict(DuplicateEmailMessage);
      }
      var kontaktModel := ToContactFromCreateDto(dto);
      kontaktModel := repository.CreateAsync(kontaktModel);
      r := Created(kontaktModel.id, ToContactDetailDto(kontaktModel));
    }

    /** PUT {id}: the framework's automatic model validation ([ApiController]) answers 400
        to an invalid body before the action runs. Otherwise 404 when no contact has the
        id; else the stored contact takes the request's fields and 200 returns its detail
        view. The email is not re-checked. */
    method Update(id: int, dto: ContactCreateAndUpdateDto, checks: AttributeChecks) returns (r: ActionResult)
      requires repository.Valid()
      modifies repository
      ensures repository.Valid()
      ensures !ModelStateValid(dto, checks) ==> r == BadRequest && unchanged(repository)
      ensures ModelStateValid(dto, checks) ==> (r == NotFound <==> id !in old(repository.contacts))
      ensures ModelStateValid(dto, checks) && id !in old(repository.contacts) ==> unchanged(repository)
      ensures ModelStateValid(dto, checks) && id in old(repository.contacts) ==>
        && repository.contacts == old(repository.contacts)[id := Updated(old(repository.contacts)[id], dto)]
        && r == Ok(ContactDetail(ToContactDetailDto(repository.contacts[id])))
      ensures repository.order == old(repository.order)
      ensures old(PasswordsStrong(repository.contacts)) ==> PasswordsStrong(repository.contacts)
    {
      if !ModelStateValid(dto, checks) {
        return BadRequest;
      }
      var kontaktModel := repository.UpdateAsync(id, dto);
      if kontaktModel.None? {
        return NotFound;
      }
      r := Ok(ContactDetail(ToContactDetailDto(kontaktModel.value)));
    }

    /** DELETE {id}: 404 when no contact has the id; otherwise it is removed and 204. */
    method Delete(id: int) returns (r: ActionResult)
      requires repository.Valid()
      modifies repository
      ensures repository.Valid()
      ensures r == NotFound <==> id !in old(repository.contacts)
      ensures r == NotFound || r == NoContent
      ensures repository.contacts == old(repository.contacts) - {id}
      ensures repository.Rows() == Where(old(repository.Rows()), HasOtherId(id))
    {
      var kontaktModel := repository.DeleteAsync(id);
      if kontaktModel.None? {
        return NotFound;
      }
      r := NoContent;
    }
  }
}
