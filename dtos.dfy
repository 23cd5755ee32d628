/** The wire records of the contact API (namespace Kontakty.DTOs). */
module DTOs {
  import opened Wrappers
  import opened Models

  /** The body of a create or update request. */
  datatype ContactCreateAndUpdateDto = ContactCreateAndUpdateDto(
    name: string,
    lastName: string,
    email: string,
    password: string,
    categoryId: int,
    categoryName: Option<string>,
    subCategoryId: Option<int>,
    subCategoryName: Option<string>,
    customSubCategory: Option<string>,
    phoneNumber: string,
    dateOfBirth: DateOnly)

  /** The full view of one contact returned by get, create and update. */
  datatype ContactDetailDto = ContactDetailDto(
    id: int,
    name: string,
    lastName: string,
    email: string,
    phoneNumber: string,
    categoryId: int,
    categoryName: Option<string>,
    subCategoryId: Option<int>,
    subCategoryName: Option<string>,
    customSubCategory: Option<string>,
    dateOfBirth: DateOnly,
    password: string)

  /** The short view of one contact returned by the listings. */
  datatype ContactListDto = ContactListDto(
    id: int,
    name: string,
    lastName: string,
    email: string,
    phoneNumber: string)
}
