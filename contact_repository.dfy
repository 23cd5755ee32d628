/** The contact repository over the store's Contacts table (class ContactRepository). */
module Repository {
  import opened Wrappers
  import opened Models
  import opened DTOs
  import opened Helpers
  import Mappings

  /** String.Contains(string) with ordinal, case-sensitive comparison: `needle`
      occurs in `s` at some offset. The empty needle occurs in every string. */
  predicate Contains(s: string, needle: string) {
    exists i :: 0 <= i <= |s| && needle <= s[i..]
  }

  /** The row predicates the repository hands to LINQ's Where, and the two used
      to specify a whole search and the rows a delete keeps. */
  datatype RowFilter =
    | LastNameContains(lastName: string)
    | PhoneNumberContains(phoneNumber: string)
    | MatchesQuery(query: QueryObject)
    | HasOtherId(id: int)

  predicate Keeps(f: RowFilter, c: ContactModel) {
    match f
    case LastNameContains(s) => Contains(c.lastName, s)
    case PhoneNumberContains(s) => Contains(c.phoneNumber, s)
    case MatchesQuery(q) =>
      && (q.lastName == "" || Contains(c.lastName, q.lastName))
      && (q.phoneNumber == "" || Contains(c.phoneNumber, q.phoneNumber))
    case HasOtherId(id) => c.id != id
  }

  /** LINQ's Where: the rows `f` keeps, in their original order. */
  function Where(rows: seq<ContactModel>, f: RowFilter): (r: seq<ContactModel>)
    ensures |r| <= |rows|
  {
    if rows == [] then []
    else (if Keeps(f, rows[0]) then [rows[0]] else []) + Where(rows[1..], f)
  }

  /** A row survives Where exactly when it is a row that the filter keeps. */
  lemma {:induction false} WhereMembership(rows: seq<ContactModel>, f: RowFilter, c: ContactModel)
    ensures c in Where(rows, f) <==> c in rows && Keeps(f, c)
  {
    if rows != [] {
      WhereMembership(rows[1..], f, c);
      assert rows == [rows[0]] + rows[1..];
    }
  }

  /** Where keeps everything when the filter holds of every row. */
  lemma {:induction false} WhereKeepsAll(rows: seq<ContactModel>, f: RowFilter)
    requires forall c :: c in rows ==> Keeps(f, c)
    ensures Where(rows, f) == rows
  {
    if rows != [] {
      WhereKeepsAll(rows[1..], f);
      assert rows == [rows[0]] + rows[1..];
    }
  }

  /** Two filters that agree on every row select the same rows. */
  lemma {:induction false} WhereAgrees(rows: seq<ContactModel>, f: RowFilter, g: RowFilter)
    requires forall c :: c in rows ==> (Keeps(f, c) <==> Keeps(g, c))
    ensures Where(rows, f) == Where(rows, g)
  {
    if rows != [] {
      WhereAgrees(rows[1..], f, g);
    }
  }

  /** Two successive Where calls select what one Where with the conjunction selects. */
  lemma {:induction false} WhereThenWhere(rows: seq<ContactModel>, f: RowFilter, g: RowFilter, both: RowFilter)
    requires forall c :: c in rows ==> (Keeps(both, c) <==> Keeps(f, c) && Keeps(g, c))
    ensures Where(Where(rows, f), g) == Where(rows, both)
  {
    if rows != [] {
      WhereThenWhere(rows[1..], f, g, both);
      var head := if Keeps(f, rows[0]) then [rows[0]] else [];
      var rest := Where(rows[1..], f);
      if Keeps(f, rows[0]) {
        assert (head + rest)[0] == rows[0];
        assert (head + rest)[1..] == rest;
      } else {
        assert head + rest == rest;
      }
    }
  }

  /** A search with both filters empty returns every row, in order. */
  lemma {:induction false} EmptyQuerySelectsAll(rows: seq<ContactModel>)
    ensures Where(rows, MatchesQuery(QueryObject("", ""))) == rows
  {
    WhereKeepsAll(rows, MatchesQuery(QueryObject("", "")));
  }

  /** The rows of `table` in the order `keys` lists them. */
  function RowsOf(keys: seq<int>, table: map<int, ContactModel>): (r: seq<ContactModel>)
    requires forall i :: 0 <= i < |keys| ==> keys[i] in table
    ensures |r| == |keys|
  {
    if keys == [] then [] else [table[keys[0]]] + RowsOf(keys[1..], table)
  }

  lemma {:induction false} RowsOfIndex(keys: seq<int>, table: map<int, ContactModel>, i: int)
    requires forall j :: 0 <= j < |keys| ==> keys[j] in table
    requires 0 <= i < |keys|
    ensures RowsOf(keys, table)[i] == table[keys[i]]
  {
    if i > 0 {
      RowsOfIndex(keys[1..], table, i - 1);
    }
  }

  /** A contact is listed exactly when it is stored under one of the listed keys. */
  lemma RowsOfMembership(keys: seq<int>, table: map<int, ContactModel>, c: ContactModel)
    requires forall j :: 0 <= j < |keys| ==> keys[j] in table
    ensures c in RowsOf(keys, table) <==> exists k :: k in keys && k in table && table[k] == c
  {
    var r := RowsOf(keys, table);
    if c in r {
      var i :| 0 <= i < |r| && r[i] == c;
      RowsOfIndex(keys, table, i);
    }
    if exists k :: k in keys && k in table && table[k] == c {
      var k :| k in keys && k in table && table[k] == c;
      var i :| 0 <= i < |keys| && keys[i] == k;
      RowsOfIndex(keys, table, i);
    }
  }

  /** Adding a new key at the end lists the new row last and every other row as before. */
  lemma {:induction false} RowsOfAppend(keys: seq<int>, table: map<int, ContactModel>, k: int, c: ContactModel)
    requires forall j :: 0 <= j < |keys| ==> keys[j] in table
    requires k !in keys
    ensures RowsOf(keys + [k], table[k := c]) == RowsOf(keys, table) + [c]
  {
    if keys == [] {
    } else {
      assert (keys + [k])[1..] == keys[1..] + [k];
      RowsOfAppend(keys[1..], table, k, c);
    }
  }

  /** `keys` without `k`, in order. */
  function Without(keys: seq<int>, k: int): (r: seq<int>)
    ensures forall x :: x in r <==> x in keys && x != k
  {
    if keys == [] then []
    else (if keys[0] == k then [] else [keys[0]]) + Without(keys[1..], k)
  }

  /** No key is listed twice. */
  ghost predicate Distinct(keys: seq<int>) {
    forall i, j :: 0 <= i < j < |keys| ==> keys[i] != keys[j]
  }

  lemma {:induction false} WithoutDistinct(keys: seq<int>, k: int)
    requires Distinct(keys)
    ensures Distinct(Without(keys, k))
  {
    if keys != [] {
      WithoutDistinct(keys[1..], k);
      var rest := Without(keys[1..], k);
      if keys[0] != k {
        assert keys[0] !in keys[1..];
        assert keys[0] !in rest;
        assert Without(keys, k) == [keys[0]] + rest;
      } else {
        assert Without(keys, k) == rest;
      }
    }
  }

  /** A list of distinct keys is as long as the set of its keys. */
  lemma {:induction false} DistinctCardinality(keys: seq<int>)
    requires Distinct(keys)
    ensures |set x | x in keys| == |keys|
  {
    if keys != [] {
      DistinctCardinality(keys[1..]);
      assert (set x | x in keys) == {keys[0]} + (set x | x in keys[1..]);
    }
  }

  /** Removing key `k` from the order and the table lists what Where would keep of
      the former rows when it drops the row whose id is `k`. */
  lemma {:induction false} RowsOfWithout(keys: seq<int>, table: map<int, ContactModel>, k: int)
    requires forall j :: 0 <= j < |keys| ==> keys[j] in table
    requires forall x :: x in table ==> table[x].id == x
    ensures forall j :: 0 <= j < |Without(keys, k)| ==> Without(keys, k)[j] in table - {k}
    ensures RowsOf(Without(keys, k), table - {k}) == Where(RowsOf(keys, table), HasOtherId(k))
  {
    if keys != [] {
      RowsOfWithout(keys[1..], table, k);
      var rows := RowsOf(keys, table);
      assert rows[0] == table[keys[0]] && rows[1..] == RowsOf(keys[1..], table);
      var rest := Without(keys[1..], k);
      if keys[0] == k {
        assert Without(keys, k) == rest;
      } else {
        var w := Without(keys, k);
        assert w == [keys[0]] + rest;
        assert w[0] == keys[0] && w[1..] == rest;
      }
    }
  }

  /** Two contacts stored under different keys have different emails. */
  ghost predicate EmailsDistinct(table: map<int, ContactModel>) {
    forall i, j :: i in table && j in table && i != j ==> table[i].email != table[j].email
  }

  /** The stored contact after UpdateAsync assigns the request's eight fields to it.
      Id, CategoryName, SubCategoryName and CustomSubCategory keep their stored values. */
  function Updated(c: ContactModel, dto: ContactCreateAndUpdateDto): ContactModel {
    c.(dateOfBirth := dto.dateOfBirth, email := dto.email, name := dto.name,
       categoryId := dto.categoryId, lastName := dto.lastName,
       subCategoryId := dto.subCategoryId, phoneNumber := dto.phoneNumber,
       password := dto.password)
  }

  class ContactRepository {
    /** The Contacts table, keyed by Id. */
    var contacts: map<int, ContactModel>
    /** The order in which the store enumerates its rows. */
    var order: seq<int>
    /** The next value of the store's key generator. */
    var nextId: int

    ghost predicate Valid()
      reads this
    {
      && (forall id :: id in contacts ==> contacts[id].id == id && id < nextId)
      && (forall i :: 0 <= i < |order| ==> order[i] in contacts)
      && (forall id :: id in contacts ==> id in order)
      && Distinct(order)
    }

    /** Every stored contact, in the store's order. */
    function Rows(): seq<ContactModel>
      reads this
      requires Valid()
    {
      RowsOf(order, contacts)
    }

    /** The store starts with no contacts. */
    constructor ()
      ensures Valid()
      ensures contacts == map[] && order == []
    {
      contacts := map[];
      order := [];
      nextId := 1;
    }

    /** Adds a contact under an id the table did not hold and returns it with that id. */
    method CreateAsync(contact: ContactModel) returns (stored: ContactModel)
      requires Valid()
      modifies this
      ensures Valid()
      ensures stored.id !in old(contacts)
      ensures stored == contact.(id := stored.id)
      ensures contacts == old(contacts)[stored.id := stored]
      ensures Rows() == old(Rows()) + [stored]
    {
      var id := nextId;
      stored := contact.(id := id);
      RowsOfAppend(order, contacts, id, stored);
      contacts := contacts[id := stored];
      order := order + [id];
      nextId := nextId + 1;
    }

    /** Removes the contact with the given id and returns it, or returns None. */
    method DeleteAsync(id: int) returns (deleted: Option<ContactModel>)
      requires Valid()
      modifies this
      ensures Valid()
      ensures id in old(contacts) ==> deleted == Some(old(contacts)[id])
      ensures id !in old(contacts) ==> deleted == None
      ensures contacts == old(contacts) - {id}
      ensures Rows() == Where(old(Rows()), HasOtherId(id))
    {
      RowsOfWithout(order, contacts, id);
      if id in contacts {
        deleted := Some(contacts[id]);
        WithoutDistinct(order, id);
        contacts := contacts - {id};
        order := Without(order, id);
      } else {
        deleted := None;
        forall c | c in Rows() ensures Keeps(HasOtherId(id), c) {
          RowsOfMembership(order, contacts, c);
        }
        WhereKeepsAll(Rows(), HasOtherId(id));
      }
    }

    /** Looks a contact up by its key. */
    method GetByIdAsync(id: int) returns (found: Option<ContactModel>)
      requires Valid()
      ensures found.Some? <==> id in contacts
      ensures found.Some? ==> found.value == contacts[id] && found.value.id == id && found.value in Rows()
      ensures found.None? ==> forall c :: c in Rows() ==> c.id != id
    {
      if id in contacts {
        found := Some(contacts[id]);
        RowsOfMembership(order, contacts, found.value);
      } else {
        found := None;
        forall c | c in Rows() ensures c.id != id {
          RowsOfMembership(order, contacts, c);
        }
      }
    }

    /** Assigns the request's fields to the stored contact with the given id and
        returns it, or returns None when there is none. */
    method UpdateAsync(id: int, dto: ContactCreateAndUpdateDto) returns (updated: Option<ContactModel>)
      requires Valid()
      modifies this
      ensures Valid()
      ensures id !in old(contacts) ==> updated == None && unchanged(this)
      ensures id in old(contacts) ==>
        && updated == Some(Updated(old(contacts)[id], dto))
        && contacts == old(contacts)[id := updated.value]
      ensures order == old(order)
    {
      if id !in contacts {
        return None;
      }
      var existing := contacts[id];
      existing := existing.(dateOfBirth := dto.dateOfBirth);
      existing := existing.(email := dto.email);
      existing := existing.(name := dto.name);
      existing := existing.(categoryId := dto.categoryId);
      existing := existing.(lastName := dto.lastName);
      existing := existing.(subCategoryId := dto.subCategoryId);
      existing := existing.(phoneNumber := dto.phoneNumber);
      existing := existing.(password := dto.password);
      contacts := contacts[id := existing];
      updated := Some(existing);
    }

    /** The contacts whose LastName contains the query's last name, when that is given,
        and whose PhoneNumber contains the query's phone number, when that is given. */
    method GetAllByQueryAsync(query: QueryObject) returns (result: seq<ContactModel>)
      requires Valid()
      ensures result == Where(Rows(), MatchesQuery(query))
      ensures forall c :: c in result <==> c in Rows() && Keeps(MatchesQuery(query), c)
      ensures query.lastName == "" && query.phoneNumber == "" ==> result == Rows()
    {
      var rows := Rows();
      var spec := MatchesQuery(query);
      var contacts := rows;
      if query.lastName != "" {
        contacts := Where(contacts, LastNameContains(query.lastName));
      }
      if query.phoneNumber != "" {
        contacts := Where(contacts, PhoneNumberContains(query.phoneNumber));
      }
      if query.lastName != "" && query.phoneNumber != "" {
        WhereThenWhere(rows, LastNameContains(query.lastName), PhoneNumberContains(query.phoneNumber), spec);
      } else if query.lastName != "" {
        WhereAgrees(rows, LastNameContains(query.lastName), spec);
      } else if query.phoneNumber != "" {
        WhereAgrees(rows, PhoneNumberContains(query.phoneNumber), spec);
      } else {
        EmptyQuerySelectsAll(rows);
      }
      result := contacts;
      forall c ensures c in result <==> c in rows && Keeps(spec, c) {
        WhereMembership(rows, spec, c);
      }
    }

    /** Every stored contact, in the store's order. */
    method GetAllAsync() returns (result: seq<ContactModel>)
      requires Valid()
      ensures result == Rows()
      ensures |result| == |contacts|
      ensures forall c :: c in result <==> c in contacts.Values
    {
      result := Rows();
      DistinctCardinality(order);
      assert forall x :: x in contacts.Keys <==> x in (set y | y in order);
      assert contacts.Keys == set x | x in order;
      forall c ensures c in result <==> c in contacts.Values {
        RowsOfMembership(order, contacts, c);
      }
    }

    /** Whether some stored contact has exactly this email. */
    method ExistsByEmail(email: string) returns (present: bool)
      requires Valid()
      ensures present <==> exists id :: id in contacts && contacts[id].email == email
      ensures present <==> exists c :: c in Rows() && c.email == email
    {
      present := exists id | id in contacts :: contacts[id].email == email;
      if present {
        var id :| id in contacts && contacts[id].email == email;
        RowsOfMembership(order, contacts, contacts[id]);
      } else {
        forall c | c in Rows() ensures c.email != email {
          RowsOfMembership(order, contacts, c);
        }
      }
    }
  }

  /** UpdateAsync's new record is the create mapping of the request, except that Id and
      the three category texts keep their stored values (the denormalised names go stale). */
  lemma UpdatedIsCreateMappingWithStaleNames(c: ContactModel, dto: ContactCreateAndUpdateDto)
    ensures Updated(c, dto) == Mappings.ToContactFromCreateDto(dto).(
      id := c.id, categoryName := c.categoryName,
      subCategoryName := c.subCategoryName, customSubCategory := c.customSubCategory)
  {
  }

  /** UpdateAsync does not check email uniqueness: updating one of two stored
      contacts to the other's email leaves two contacts with the same email. */
  lemma UpdateCanDuplicateEmail()
    ensures exists table: map<int, ContactModel>, id: int, dto: ContactCreateAndUpdateDto ::
      && EmailsDistinct(table) && id in table
      && !EmailsDistinct(table[id := Updated(table[id], dto)])
  {
    var date := DateOnly(1990, 5, 1);
    var jan := ContactModel(1, "Jan", "Kowalski", "jan@example.com", "Haslo123!", 1, None, None, None, None, "123", date);
    var anna := ContactModel(2, "Anna", "Nowak", "anna@example.com", "Haslo123!", 2, None, None, None, None, "987", date);
    var table := map[1 := jan, 2 := anna];
    var dto := ContactCreateAndUpdateDto("Anna", "Nowak", "jan@example.com", "Haslo123!", 2, None, None, None, None, "987", date);
    assert table[2 := Updated(table[2], dto)][1].email == table[2 := Updated(table[2], dto)][2].email;
  }
}
