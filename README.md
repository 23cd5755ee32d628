# Kontakty contact core, modelled in Dafny

Kontakty is a contact-management web application. Its server keeps contact
records (name, last name, email, a per-contact password field, category and
subcategory, phone number, date of birth) and exposes them through REST
endpoints. This project models the server-side contact logic:

- `Repository.ContactRepository` (contact_repository.dfy): the Contacts table as a class whose
  state is a map from id to record, the order in which the store enumerates its rows and the
  key generator's next value. It has create (under a fresh id), get-by-id, delete, update in place,
  the full and the filtered listing, and the email-existence check.
- `Controllers.ContactController` (contact_controller.dfy): the six endpoint actions as methods
  over the repository. Each returns an `ActionResult`: BadRequest, Conflict, Created, Ok,
  NotFound or NoContent.
- `Mappings` (mapping_contact.dfy): the three field-copying conversions between the stored
  contact and its wire records.
- `Validator` (strong_password.dfy): the strong-password attribute with its ASCII character classes.
- `Models`, `DTOs`, `Helpers`, `Wrappers`: the records as datatypes. Nullable fields are `Option`s.

The repository's class invariant `Valid()` says three things. Every record is stored under its own
id. The order lists every key exactly once. Every key is below the generator's next value.
Email uniqueness is NOT part of the invariant. Create checks the email before it stores
(`Controllers.ContactController.Create` keeps `EmailsDistinct`). Update does not re-check the email,
so it can give two contacts the same email (`Repository.UpdateCanDuplicateEmail`). The store is an
in-memory database, so the unique index declared on Email is not relied on either.

The controller is marked `[ApiController]`, so the framework validates every request body before
an action runs and answers 400 to an invalid one. Create also tests `ModelState.IsValid` itself; for
Update the framework's check is the only one. Both actions therefore preserve `PasswordsStrong`: if
every stored password passes the strong-password attribute before the call, every one still does
after it. This is a preserved property, not a fact about the running store: the contacts seeded at
startup have passwords that fail the rule, and seeding is not modelled.

## Model

| member | source | states |
|---|---|---|
| `Repository.ContactRepository.constructor` | Kontakty.Server/Repository/ContactRepository.cs:21-24 | the store starts with no contacts and satisfies the table invariant |
| `Repository.ContactRepository.CreateAsync` | Kontakty.Server/Repository/ContactRepository.cs:30-42 | the stored contact is the given one under an id the table did not hold; every earlier contact is unchanged; exactly one row is added, last in the listing |
| `Repository.ContactRepository.DeleteAsync` | Kontakty.Server/Repository/ContactRepository.cs:49-61 | an absent id gives None and changes nothing; a present id gives that contact and removes only it; the listing keeps every other row in order |
| `Repository.ContactRepository.GetByIdAsync` | Kontakty.Server/Repository/ContactRepository.cs:68-71 | found iff the id is stored; a found contact carries that id and is one of the listed rows; when nothing is found, no listed row has the id |
| `Repository.ContactRepository.UpdateAsync` | Kontakty.Server/Repository/ContactRepository.cs:79-100 | an absent id gives None and changes nothing; a present id gets the request's eight fields (`Updated`) and nothing else in the table changes |
| `Repository.ContactRepository.GetAllByQueryAsync` | Kontakty.Server/Repository/ContactRepository.cs:107-123 | the two successive filters return exactly the rows whose LastName contains the last-name filter (when non-empty) and whose PhoneNumber contains the phone filter (when non-empty), in store order; with both filters empty, all rows |
| `Repository.ContactRepository.GetAllAsync` | Kontakty.Server/Repository/ContactRepository.cs:129-132 | the listing holds every stored contact once, and nothing else |
| `Repository.ContactRepository.ExistsByEmail` | Kontakty.Server/Repository/ContactRepository.cs:139-142 | true iff some stored contact's email equals the argument exactly |
| `Repository.Where` | Kontakty.Server/Repository/ContactRepository.cs:114 | a Where never returns more rows than it is given |
| `Repository.WhereMembership` | Kontakty.Server/Repository/ContactRepository.cs:114 | a row survives a Where iff it was a row and the predicate holds of it |
| `Repository.WhereKeepsAll` | Kontakty.Server/Repository/ContactRepository.cs:114 | a Where whose predicate holds of every row returns the rows unchanged |
| `Repository.WhereAgrees` | Kontakty.Server/Repository/ContactRepository.cs:114 | predicates that agree on every row select the same rows |
| `Repository.WhereThenWhere` | Kontakty.Server/Repository/ContactRepository.cs:109-121 | filtering by last name and then by phone selects what one pass with both filters ANDed selects |
| `Repository.EmptyQuerySelectsAll` | Kontakty.Server/Repository/ContactRepository.cs:109-132 | a search with both filters empty equals the full listing |
| `Repository.RowsOf` | Kontakty.Server/Repository/ContactRepository.cs:131 | the listing has one row per listed key |
| `Repository.RowsOfMembership` | Kontakty.Server/Repository/ContactRepository.cs:131 | a contact is listed iff it is stored under a listed key |
| `Repository.RowsOfAppend` | Kontakty.Server/Repository/ContactRepository.cs:34-36 | adding a row under a new key lists it last and every other row as before |
| `Repository.RowsOfWithout` | Kontakty.Server/Repository/ContactRepository.cs:52-57 | removing a key lists exactly the former rows whose id differs from it, in order |
| `Repository.DistinctCardinality` | Kontakty.Server/Repository/ContactRepository.cs:131 | a key order with no repeats is as long as its key set, so the listing is as long as the table |
| `Repository.UpdatedIsCreateMappingWithStaleNames` | Kontakty.Server/Repository/ContactRepository.cs:89-96 | the updated record is the create mapping of the request, except that Id, CategoryName, SubCategoryName and CustomSubCategory keep their stored values |
| `Repository.UpdateCanDuplicateEmail` | Kontakty.Server/Repository/ContactRepository.cs:89-96 | an update can give two stored contacts the same email: a table with distinct emails, and an update that breaks this |
| `Controllers.ContactController.constructor` | Kontakty.Server/Controllers/ContactController.cs:29-35 | the controller works on the repository it is given |
| `Controllers.ContactController.GetAllWithQuery` | Kontakty.Server/Controllers/ContactController.cs:43-48 | always Ok, with one list view per search result in the same order; every matching stored contact's list view is in the body, and every item is the list view of a matching stored contact |
| `Controllers.ContactController.GetAll` | Kontakty.Server/Controllers/ContactController.cs:55-60 | always Ok, with one list view per stored contact in store order |
| `Controllers.ContactController.GetById` | Kontakty.Server/Controllers/ContactController.cs:71-79 | NotFound iff the id is absent; otherwise Ok with the detail view of that contact; the table is never modified |
| `Controllers.ContactController.Create` | Kontakty.Server/Controllers/ContactController.cs:92-108 | an invalid body gives BadRequest and a known email gives Conflict with the fixed message, both leaving the store untouched; otherwise the mapped contact is stored under a new id, appended last to the listing, and Created returns that id and the detail view of the stored contact; pairwise distinct emails stay pairwise distinct, and strong stored passwords stay strong |
| `Controllers.ContactController.Update` | Kontakty.Server/Controllers/ContactController.cs:122-131 | an invalid body gives BadRequest with the store untouched; otherwise NotFound iff the id is absent, with the store untouched, else the record takes the request's fields (`Updated`) and Ok returns its detail view; the listing order never changes and strong stored passwords stay strong |
| `Controllers.ContactController.Delete` | Kontakty.Server/Controllers/ContactController.cs:144-152 | NotFound iff the id is absent; otherwise NoContent and the contact is gone, every other row kept in order |
| `Controllers.ToListDtos` | Kontakty.Server/Controllers/ContactController.cs:46 | the Select gives one list view per row, and a list view is in the result iff it is the view of some row |
| `Controllers.ToListDtosAppend` | Kontakty.Server/Controllers/ContactController.cs:46 | the Select distributes over joined runs of rows, so it keeps the rows' order |
| `Controllers.ToListDtosAt` | Kontakty.Server/Controllers/ContactController.cs:46 | the list view at each position is the view of the row at that position |
| `Mappings.CreateMappingFields` | Kontakty.Server/Mappers/MappingContact.cs:17-32 | the create mapping copies the ten fields verbatim and leaves Id at 0 and SubCategoryName null |
| `Mappings.CreateMappingIgnoresSubCategoryName` | Kontakty.Server/Mappers/MappingContact.cs:19-31 | the request's SubCategoryName has no effect on the new contact |
| `Mappings.DetailMappingFields` | Kontakty.Server/Mappers/MappingContact.cs:39-55 | the detail view copies the eleven fields and carries no CustomSubCategory |
| `Mappings.DetailMappingDropsCustomSubCategory` | Kontakty.Server/Mappers/MappingContact.cs:41-54 | contacts differing only in CustomSubCategory have the same detail view |
| `Mappings.ListMappingIsProjection` | Kontakty.Server/Mappers/MappingContact.cs:62-72 | two contacts have the same list view iff they agree on Id, Name, LastName, Email and PhoneNumber |
| `Mappings.ListAgreesWithDetail` | Kontakty.Server/Mappers/MappingContact.cs:39-72 | the list and detail views of one contact agree on their five shared fields |
| `Mappings.CreateThenDetailRoundTrip` | Kontakty.Server/Mappers/MappingContact.cs:17-55 | mapping a request to a contact and back keeps Name, LastName, Email, Password, CategoryId, CategoryName, SubCategoryId, PhoneNumber and DateOfBirth |
| `Validator.FormatErrorMessageIgnoresName` | Kontakty.Server/Validator/StrongPasswordAttribute.cs:17-20 | the message is the same fixed, non-empty sentence whatever the field name |
| `Validator.Count` | Kontakty.Server/Validator/StrongPasswordAttribute.cs:11-14 | a class never counts more characters than the password has |
| `Validator.IsMatchIffCounted` | Kontakty.Server/Validator/StrongPasswordAttribute.cs:11-14 | a class test matches iff at least one character is in the class |
| `Validator.ClassesPartition` | Kontakty.Server/Validator/StrongPasswordAttribute.cs:11-14 | every character falls in exactly one of the four classes |
| `Validator.IsValidByCounts` | Kontakty.Server/Validator/StrongPasswordAttribute.cs:10-14 | valid iff length at least 8 and at least one upper-case, one lower-case, one digit and one special character |
| `Validator.NonTextIsInvalid` | Kontakty.Server/Validator/StrongPasswordAttribute.cs:8 | a value that is not a string is invalid |
| `Validator.ShortIsInvalid` | Kontakty.Server/Validator/StrongPasswordAttribute.cs:10 | every password shorter than 8 characters is invalid |
| `Validator.NonAsciiIsSpecial` | Kontakty.Server/Validator/StrongPasswordAttribute.cs:11-14 | a non-ASCII character is special and never an upper-case letter, lower-case letter or digit |
| `Validator.PolishLettersAreSpecial` | Kontakty.Server/Validator/StrongPasswordAttribute.cs:10-14 | "Zażółć12" is valid (its Polish letters are the special characters); "Łódź1234!" is invalid (no ASCII upper-case letter) |
| `Validator.AppendKeepsValid` | Kontakty.Server/Validator/StrongPasswordAttribute.cs:10-14 | appending characters to a valid password keeps it valid |
| `Validator.Examples` | Kontakty.Server/Validator/StrongPasswordAttribute.cs:10-14 | "abc" and "Abcdefg1" are invalid, "Abcdefg1!" is valid |

## Left out

- Asynchrony, the HTTP transport, routing and the `[Authorize]` checks: every action runs to completion, one at a time.
- Entity objects are values. CreateAsync in the source returns the very object it was given, with the generated Id written into it, and UpdateAsync returns the tracked object it changed. The model returns the stored record instead, so aliasing between the caller's object and the store is not captured.
- Repository.ContactRepository.CreateAsync: always stores the contact under a fresh generated id. A contact handed in with a non-default Id, which the store would keep or reject as a duplicate key, does not occur on the controller's path. The "Failed to create contact" wrapper for storage exceptions is not modelled either, since nothing in the model can fail.
- Ids are unbounded integers: the 32-bit range of `int` and key-generator overflow are not modelled.
- Strings are sequences of Unicode scalar values, not of UTF-16 code units. A password holding characters outside the Basic Multilingual Plane is one character per symbol here, but two in the source's length test.
- Null strings: Name, LastName, Email, Password and PhoneNumber are never null in the model. A search parameter that is null is modelled as "", which the source treats the same way.
- The [Required], [EmailAddress] and [Phone] validators are library code. `Controllers.AttributeChecks` takes them as functions. BadRequest's per-field error dictionary is not modelled.
- The framework's automatic 400 for an invalid body is modelled on Create and Update, the two actions with a validated body. On Create it coincides with the action's own `ModelState.IsValid` test, so the model has one check there.
- The navigation properties Category and SubCategory of a contact, and the ApplicationDBContext configuration (seeded roles, cascade delete, the unique index on Email), are not modelled. The unique index is not enforced by the in-memory store the application uses.
- The controller's logger and database context fields are unused by its actions and are left out, and so is the ArgumentNullException its constructor throws when the context is null.
- The order in which the store enumerates its rows is modelled as insertion order with deleted rows removed; the in-memory store does not promise an order.
- The account endpoints, the token service, startup seeding and the client application are not part of this model.
- The source files of QueryObject, ContactDetailDto and ContactListDto are not part of this model. Their fields follow the mapper and the client's type declarations.
