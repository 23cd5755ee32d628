/** The stored entities (namespace Kontakty.Models and Kontakty.Enums). */
module Models {
  import opened Wrappers

  /** A calendar date as System.DateOnly holds it. The contact core only copies dates. */
  datatype DateOnly = DateOnly(year: int, month: int, day: int)

  /** A subcategory belongs to exactly one category through `categoryId`. */
  datatype SubCategory = SubCategory(id: int, name: string, categoryId: int)

  /** A category with its subcategories, in the order the relation lists them. */
  datatype Category = Category(id: int, name: string, subCategories: seq<SubCategory>)

  /** A stored contact. The navigation properties `Category` and `SubCategory` are
      not modelled; the contact core reads and writes only the fields below. */
  datatype ContactModel = ContactModel(
    id: int,
    name: string,
    lastName: string,
    email: string,
    password: string,
    categoryId: int,
    categoryName: Option<string>,
    subCategoryId: Option<int>,
    subCategoryName: Option<string>,
    customSubCategory: Option<string>,
    phoneNumber: string,
    dateOfBirth: DateOnly)
}
