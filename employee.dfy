/**
 * The employee entity of the links variant: first name, last name and
 * role, with a derived full name. `getName` joins the two names with a
 * space; `setName` splits its argument the way Java's `String.split(" ")`
 * does and takes the first two pieces, throwing an index-out-of-bounds
 * exception when there are fewer.
 *
 * `Employee` is the mutable Java object; `EmployeeRow` is its value, which
 * is what the store keeps. The string fields may be null (`None`).
 */
module EmployeeEntity {
  import opened Common

  /** A Java `String` reference, which may be null. */
  type JString = Option<string>

  /** Java string concatenation prints a null reference as "null". */
  function Render(s: JString): string {
    match s
    case None => "null"
    case Some(v) => v
  }

  // ---------------------------------------------------------------------
  // String.split(" ")

  /** The pieces of `s` between single spaces, empty pieces included. */
  function Pieces(s: string): (r: seq<string>)
    ensures |r| >= 1
  {
    if s == [] then [""]
    else
      var rest := Pieces(s[1..]);
      if s[0] == ' ' then [""] + rest
      else [[s[0]] + rest[0]] + rest[1..]
  }

  /** `ts` without its trailing empty strings. */
  function DropTrailingEmpty(ts: seq<string>): (r: seq<string>)
    ensures r <= ts
    ensures r == [] || r[|r| - 1] != ""
    ensures forall i :: |r| <= i < |ts| ==> ts[i] == ""
  {
    if ts == [] then []
    else if ts[|ts| - 1] == "" then DropTrailingEmpty(ts[..|ts| - 1])
    else ts
  }

  /**
   * `s.split(" ")`: a string without a space is returned whole (even the
   * empty string); otherwise the pieces between spaces, with the trailing
   * empty pieces removed.
   */
  function Split(s: string): (r: seq<string>)
    ensures ' ' !in s ==> r == [s]
    ensures forall i :: 0 <= i < |r| ==> ' ' !in r[i]
    ensures ' ' in s ==> r <= Pieces(s) && (r == [] || r[|r| - 1] != "")
    ensures ' ' in s ==> forall i :: |r| <= i < |Pieces(s)| ==> Pieces(s)[i] == ""
  {
    if ' ' !in s then [s]
    else
      PiecesHaveNoSpace(s);
      DropTrailingEmpty(Pieces(s))
  }

  /** The pieces joined back with single spaces. */
  function Join(ts: seq<string>): string
    requires |ts| >= 1
  {
    if |ts| == 1 then ts[0] else ts[0] + " " + Join(ts[1..])
  }

  /** Joining the pieces gives back the original string. */
  lemma {:induction false} JoinPieces(s: string)
    ensures Join(Pieces(s)) == s
  {
    if s != [] {
      JoinPieces(s[1..]);
      var rest := Pieces(s[1..]);
      if s[0] == ' ' {
        assert Pieces(s) == [""] + rest;
        assert ([""] + rest)[1..] == rest;
      } else {
        if |rest| == 1 {
          assert Join(Pieces(s)) == [s[0]] + rest[0];
        } else {
          assert Pieces(s)[1..] == rest[1..];
          assert Join(rest) == rest[0] + " " + Join(rest[1..]);
        }
      }
      assert s == [s[0]] + s[1..];
    }
  }

  /** No piece contains a space. */
  lemma {:induction false} PiecesHaveNoSpace(s: string)
    ensures forall i :: 0 <= i < |Pieces(s)| ==> ' ' !in Pieces(s)[i]
  {
    if s != [] {
      PiecesHaveNoSpace(s[1..]);
    }
  }

  /** A word without a space is a single piece. */
  lemma {:induction false} PiecesOfWord(w: string)
    requires ' ' !in w
    ensures Pieces(w) == [w]
  {
    if w != [] {
      PiecesOfWord(w[1..]);
      assert w == [w[0]] + w[1..];
    }
  }

  /** A word followed by a space and more text: the word, then the pieces of the rest. */
  lemma {:induction false} PiecesAfterWord(w: string, rest: string)
    requires ' ' !in w
    ensures Pieces(w + " " + rest) == [w] + Pieces(rest)
  {
    if w == [] {
      assert w + " " + rest == [' '] + rest;
      assert (w + " " + rest)[1..] == rest;
    } else {
      PiecesAfterWord(w[1..], rest);
      assert (w + " " + rest)[1..] == w[1..] + " " + rest;
      assert w == [w[0]] + w[1..];
    }
  }

  /** Splitting pieces joined with spaces gives back the pieces. */
  lemma {:induction false} PiecesOfJoin(ts: seq<string>)
    requires |ts| >= 1
    requires forall i :: 0 <= i < |ts| ==> ' ' !in ts[i]
    ensures Pieces(Join(ts)) == ts
    decreases |ts|
  {
    if |ts| == 1 {
      PiecesOfWord(ts[0]);
    } else {
      PiecesOfJoin(ts[1..]);
      PiecesAfterWord(ts[0], Join(ts[1..]));
      assert ts == [ts[0]] + ts[1..];
    }
  }

  /** Two non-empty words without spaces split back into exactly those words. */
  lemma SplitTwoWords(first: string, last: string)
    requires first != "" && last != "" && ' ' !in first && ' ' !in last
    ensures Split(first + " " + last) == [first, last]
  {
    PiecesAfterWord(first, last);
    PiecesOfWord(last);
    assert (first + " " + last)[|first|] == ' ';
  }

  /** Pieces after the second are ignored: only the first two matter to `setName`. */
  lemma SplitKeepsFirstTwo(first: string, last: string, more: string)
    requires first != "" && last != "" && ' ' !in first && ' ' !in last
    ensures |Split(first + " " + last + " " + more)| >= 2
    ensures Split(first + " " + last + " " + more)[..2] == [first, last]
  {
    var s := first + " " + last + " " + more;
    assert s == first + " " + (last + " " + more);
    PiecesAfterWord(first, last + " " + more);
    PiecesAfterWord(last, more);
    assert s[|first|] == ' ';
    assert Pieces(s) == [first, last] + Pieces(more);
    assert Pieces(s)[1] == last != "";
    assert Split(s) == DropTrailingEmpty(Pieces(s));
  }

  /** A single word, with or without a trailing space, yields fewer than two pieces. */
  lemma SplitSingleWord(w: string)
    requires ' ' !in w
    ensures |Split(w)| < 2
    ensures |Split(w + " ")| < 2
  {
    PiecesAfterWord(w, "");
    assert w + " " + "" == w + " ";
    assert (w + " ")[|w|] == ' ';
  }

  // ---------------------------------------------------------------------
  // The entity

  /** The field values of one employee: what the store persists. */
  datatype EmployeeRow = EmployeeRow(id: Option<int>, firstName: JString, lastName: JString, role: JString)

  datatype EmployeeError =
    | EmployeeNotFound(id: int)
    | IndexOutOfBounds(index: int)

  /** `getName`: first and last name joined by a space. */
  function Name(e: EmployeeRow): (r: string)
    ensures |r| == |Render(e.firstName)| + 1 + |Render(e.lastName)|
    ensures r[..|Render(e.firstName)|] == Render(e.firstName) && r[|Render(e.firstName)|] == ' '
    ensures r[|Render(e.firstName)| + 1..] == Render(e.lastName)
    ensures IsPlainName(e.firstName) && IsPlainName(e.lastName) ==>
      Split(r) == [e.firstName.value, e.lastName.value]
  {
    var r := Render(e.firstName) + " " + Render(e.lastName);
    if IsPlainName(e.firstName) && IsPlainName(e.lastName) then
      SplitTwoWords(e.firstName.value, e.lastName.value);
      r
    else
      r
  }

  /**
   * The outcome of `setName(name)` on an employee with fields `e`: the
   * first two pieces of the split become the names, or the exception
   * thrown when the split has fewer than two pieces.
   */
  function WithName(e: EmployeeRow, name: string): (r: Result<EmployeeRow, EmployeeError>)
    ensures r.Success? <==> |Split(name)| >= 2
    ensures r.Success? ==> r.value == e.(firstName := Some(Split(name)[0]), lastName := Some(Split(name)[1]))
    ensures r.Failure? ==> r.error == IndexOutOfBounds(|Split(name)|)
  {
    var parts := Split(name);
    if |parts| < 1 then Failure(IndexOutOfBounds(0))
    else if |parts| < 2 then Failure(IndexOutOfBounds(1))
    else Success(e.(firstName := Some(parts[0]), lastName := Some(parts[1])))
  }

  /** Names that survive `setName(getName())` unchanged. */
  predicate IsPlainName(s: JString) {
    s.Some? && s.value != "" && ' ' !in s.value
  }

  /** Round trip: with plain names, `setName(getName())` changes nothing. */
  lemma NameRoundTrip(e: EmployeeRow)
    requires IsPlainName(e.firstName) && IsPlainName(e.lastName)
    ensures WithName(e, Name(e)) == Success(e)
  {
    SplitTwoWords(e.firstName.value, e.lastName.value);
  }

  /** A null first name comes back from `setName(getName())` as the text "null". */
  lemma NullFirstNameBecomesText(e: EmployeeRow)
    requires e.firstName.None? && IsPlainName(e.lastName)
    ensures WithName(e, Name(e)) == Success(e.(firstName := Some("null")))
  {
    SplitTwoWords("null", e.lastName.value);
  }

  class Employee {
    var id: Option<int>
    var firstName: JString
    var lastName: JString
    var role: JString

    /** `Employee()`: every field null. */
    constructor Blank()
      ensures Value() == EmployeeRow(None, None, None, None)
    {
      id, firstName, lastName, role := None, None, None, None;
    }

    /** `Employee(firstName, lastName, role)`: the identifier is left unset. */
    constructor (firstName: JString, lastName: JString, role: JString)
      ensures Value() == EmployeeRow(None, firstName, lastName, role)
    {
      this.id := None;
      this.firstName := firstName;
      this.lastName := lastName;
      this.role := role;
    }

    /** Materialises a stored row as an object, as the store's `findById` does. */
    constructor FromRow(row: EmployeeRow)
      ensures Value() == row
    {
      id, firstName, lastName, role := row.id, row.firstName, row.lastName, row.role;
    }

    /** The object's current field values. */
    function Value(): EmployeeRow
      reads this
    {
      EmployeeRow(id, firstName, lastName, role)
    }

    /** `getName`: the two names around one space; plain names split back into the same two. */
    function GetName(): (r: string)
      reads this
      ensures |r| == |Render(firstName)| + 1 + |Render(lastName)| && r[|Render(firstName)|] == ' '
      ensures r[..|Render(firstName)|] == Render(firstName) && r[|Render(firstName)| + 1..] == Render(lastName)
      ensures IsPlainName(firstName) && IsPlainName(lastName) ==> Split(r) == [firstName.value, lastName.value]
    {
      Name(Value())
    }

    /**
     * `setName`: splits, assigns piece 0 to the first name, then piece 1
     * to the last name. With a single piece the first name is already
     * overwritten when the exception is thrown; with none nothing changes.
     */
    method SetName(name: string) returns (thrown: Option<EmployeeError>)
      modifies this
      ensures id == old(id) && role == old(role)
      ensures |Split(name)| == 0 ==>
        thrown == Some(IndexOutOfBounds(0)) && firstName == old(firstName) && lastName == old(lastName)
      ensures |Split(name)| == 1 ==>
        thrown == Some(IndexOutOfBounds(1)) && firstName == Some(Split(name)[0]) && lastName == old(lastName)
      ensures thrown.None? <==> WithName(old(Value()), name).Success?
      ensures thrown.None? ==> Value() == WithName(old(Value()), name).value
    {
      var parts := Split(name);
      if |parts| < 1 {
        return Some(IndexOutOfBounds(0));
      }
      firstName := Some(parts[0]);
      if |parts| < 2 {
        return Some(IndexOutOfBounds(1));
      }
      lastName := Some(parts[1]);
      thrown := None;
    }

    method SetId(id: Option<int>)
      modifies this
      ensures Value() == old(Value()).(id := id)
    {
      this.id := id;
    }

    method SetFirstName(firstName: JString)
      modifies this
      ensures Value() == old(Value()).(firstName := firstName)
    {
      this.firstName := firstName;
    }

    method SetLastName(lastName: JString)
      modifies this
      ensures Value() == old(Value()).(lastName := lastName)
    {
      this.lastName := lastName;
    }

    method SetRole(role: JString)
      modifies this
      ensures Value() == old(Value()).(role := role)
    {
      this.role := role;
    }

    /**
     * `equals(Object)`: an identity short-cut, false for anything that is
     * not an `Employee` (null included), otherwise equality of all four
     * fields. Altogether it is equality of the two objects' values.
     */
    predicate Equals(o: object?)
      reads this, o
      ensures Equals(o) <==> o is Employee && (o as Employee).Value() == Value()
    {
      if this == o then true
      else if !(o is Employee) then false
      else
        var other := o as Employee;
        id == other.id && firstName == other.firstName && lastName == other.lastName && role == other.role
    }
  }
}
