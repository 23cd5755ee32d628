/** Field-copying conversions between the stored contact and its wire records
    (static class MappingContact). */
module Mappings {
  import opened Wrappers
  import opened Models
  import opened DTOs

  /** A new contact built from a request body. The initializer leaves `Id` and
      `SubCategoryName` at their defaults (0 and null). */
  function ToContactFromCreateDto(dto: ContactCreateAndUpdateDto): ContactModel {
    ContactModel(
      id := 0,
      name := dto.name,
      lastName := dto.lastName,
      email := dto.email,
      password := dto.password,
      categoryId := dto.categoryId,
      categoryName := dto.categoryName,
      subCategoryId := dto.subCategoryId,
      subCategoryName := None,
      customSubCategory := dto.customSubCategory,
      phoneNumber := dto.phoneNumber,
      dateOfBirth := dto.dateOfBirth)
  }

  /** The detail view of a contact. `CustomSubCategory` is not set, so it is null. */
  function ToContactDetailDto(c: ContactModel): ContactDetailDto {
    ContactDetailDto(
      id := c.id,
      name := c.name,
      lastName := c.lastName,
      email := c.email,
      phoneNumber := c.phoneNumber,
      categoryId := c.categoryId,
      categoryName := c.categoryName,
      subCategoryId := c.subCategoryId,
      subCategoryName := c.subCategoryName,
      customSubCategory := None,
      dateOfBirth := c.dateOfBirth,
      password := c.password)
  }

  /** The list view of a contact. */
  function ToContactListDto(c: ContactModel): ContactListDto {
    ContactListDto(id := c.id, name := c.name, lastName := c.lastName, email := c.email, phoneNumber := c.phoneNumber)
  }

  /** The ten fields the create mapping copies, and the two it leaves at their defaults. */
  lemma CreateMappingFields(dto: ContactCreateAndUpdateDto)
    ensures var m := ToContactFromCreateDto(dto);
      && m.name == dto.name && m.lastName == dto.lastName && m.email == dto.email
      && m.password == dto.password && m.categoryId == dto.categoryId
      && m.categoryName == dto.categoryName && m.subCategoryId == dto.subCategoryId
      && m.customSubCategory == dto.customSubCategory && m.phoneNumber == dto.phoneNumber
      && m.dateOfBirth == dto.dateOfBirth
      && m.id == 0 && m.subCategoryName == None
  {
  }

  /** The request's `SubCategoryName` never reaches the stored contact. */
  lemma CreateMappingIgnoresSubCategoryName(dto: ContactCreateAndUpdateDto, s: Option<string>)
    ensures ToContactFromCreateDto(dto.(subCategoryName := s)) == ToContactFromCreateDto(dto)
  {
  }

  /** The eleven fields the detail mapping copies; the detail view never carries
      the contact's `CustomSubCategory`. */
  lemma DetailMappingFields(c: ContactModel)
    ensures var d := ToContactDetailDto(c);
      && d.id == c.id && d.name == c.name && d.lastName == c.lastName && d.email == c.email
      && d.categoryId == c.categoryId && d.categoryName == c.categoryName
      && d.subCategoryId == c.subCategoryId && d.subCategoryName == c.subCategoryName
      && d.phoneNumber == c.phoneNumber && d.dateOfBirth == c.dateOfBirth
      && d.password == c.password
      && d.customSubCategory == None
  {
  }

  /** Two contacts that differ only in `CustomSubCategory` have the same detail view. */
  lemma DetailMappingDropsCustomSubCategory(c: ContactModel, s: Option<string>)
    ensures ToContactDetailDto(c.(customSubCategory := s)) == ToContactDetailDto(c)
  {
  }

  /** The list view is exactly the projection on Id, Name, LastName, Email and PhoneNumber:
      two contacts have the same list view if and only if they agree on those five fields. */
  lemma ListMappingIsProjection(c1: ContactModel, c2: ContactModel)
    ensures ToContactListDto(c1) == ToContactListDto(c2) <==>
      c1.id == c2.id && c1.name == c2.name && c1.lastName == c2.lastName
      && c1.email == c2.email && c1.phoneNumber == c2.phoneNumber
  {
  }

  /** The list view and the detail view of one contact agree on their shared fields. */
  lemma ListAgreesWithDetail(c: ContactModel)
    ensures var l, d := ToContactListDto(c), ToContactDetailDto(c);
      l.id == d.id && l.name == d.name && l.lastName == d.lastName
      && l.email == d.email && l.phoneNumber == d.phoneNumber
  {
  }

  /** Round trip: a request body mapped to a contact and back to a detail view keeps
      every field the two records share except `CustomSubCategory` and `SubCategoryName`,
      which come back null. */
  lemma CreateThenDetailRoundTrip(dto: ContactCreateAndUpdateDto)
    ensures var d := ToContactDetailDto(ToContactFromCreateDto(dto));
      && d.name == dto.name && d.lastName == dto.lastName && d.email == dto.email
      && d.password == dto.password && d.categoryId == dto.categoryId
      && d.categoryName == dto.categoryName && d.subCategoryId == dto.subCategoryId
      && d.phoneNumber == dto.phoneNumber && d.dateOfBirth == dto.dateOfBirth
      && d.id == 0 && d.subCategoryName == None && d.customSubCategory == None
  {
  }
}
