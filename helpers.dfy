/** Query-string parameters of the search endpoint (namespace Kontakty.Helpers). */
module Helpers {

  /** A missing parameter (null) is written "": the repository treats null and
      the empty string alike (String.IsNullOrEmpty). */
  datatype QueryObject = QueryObject(lastName: string, phoneNumber: string)
}
