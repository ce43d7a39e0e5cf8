/**
 * `EmployeeController`: list, create, read, replace and delete employees.
 * The links and the evolution variants have the same five handlers, line
 * for line, so one class models both.
 *
 * `replaceEmployee` is an upsert: when the id is stored, that employee
 * takes the request's name (through `setName(getName())`) and role and is
 * saved; otherwise the request body itself is given the path id and saved.
 * Its effect on the store is stated once, by the pure `Replace`.
 */
module EmployeeControl {
  import opened Common
  import opened Store
  import opened EmployeeEntity

  /** What `replaceEmployee` answers, and the rows it leaves behind. */
  datatype Replacement = Replacement(result: Result<EmployeeRow, EmployeeError>, rows: map<int, EmployeeRow>)

  /** The effect of `replaceEmployee(input, id)` on the rows of the store. */
  function Replace(rows: map<int, EmployeeRow>, input: EmployeeRow, id: int): (t: Replacement)
    ensures forall k :: k != id ==> (k in t.rows <==> k in rows)
    ensures forall k :: k in rows && k != id ==> t.rows[k] == rows[k]
    ensures t.result.Failure? <==> id in rows && |Split(Name(input))| < 2
    ensures t.result.Failure? ==> t.rows == rows && t.result.error == IndexOutOfBounds(|Split(Name(input))|)
    ensures t.result.Success? ==> id in t.rows && t.rows[id] == t.result.value
    ensures id in rows && t.result.Success? ==>
      t.result.value == rows[id].(firstName := Some(Split(Name(input))[0]),
                                  lastName := Some(Split(Name(input))[1]),
                                  role := input.role)
    ensures id !in rows ==> t.result == Success(input.(id := Some(id)))
  {
    if id in rows then
      match WithName(rows[id], Name(input))
      case Failure(e) => Replacement(Failure(e), rows)
      case Success(named) =>
        var saved := named.(role := input.role);
        Replacement(Success(saved), rows[id := saved])
    else
      var saved := input.(id := Some(id));
      Replacement(Success(saved), rows[id := saved])
  }

  /** With plain names, replacing an existing employee takes the request's names as they are. */
  lemma ReplaceKeepsPlainNames(rows: map<int, EmployeeRow>, input: EmployeeRow, id: int)
    requires id in rows && IsPlainName(input.firstName) && IsPlainName(input.lastName)
    ensures Replace(rows, input, id).result ==
      Success(rows[id].(firstName := input.firstName, lastName := input.lastName, role := input.role))
  {
    SplitTwoWords(input.firstName.value, input.lastName.value);
  }

  /**
   * Sending the same replacement twice leaves the store as sending it
   * once, provided the id was already stored or the request's names are
   * plain (otherwise the second request re-splits the names the first
   * one stored verbatim).
   */
  lemma ReplaceIdempotent(rows: map<int, EmployeeRow>, input: EmployeeRow, id: int)
    requires id in rows || (IsPlainName(input.firstName) && IsPlainName(input.lastName))
    ensures var once := Replace(rows, input, id);
      Replace(once.rows, input, id).rows == once.rows
  {
    var once := Replace(rows, input, id);
    if id !in rows {
      SplitTwoWords(input.firstName.value, input.lastName.value);
      assert once.rows[id] == input.(id := Some(id));
    }
  }

  /**
   * Without that proviso idempotence fails: a new employee stored with the
   * first name "a b" is renamed by the second request to first name "a" and
   * last name "b".
   */
  lemma ReplaceTwiceCanRename()
    ensures var input := EmployeeRow(None, Some("a b"), Some("c"), Some("r"));
      var once := Replace(map[], input, 1);
      && once.rows == map[1 := input.(id := Some(1))]
      && Replace(once.rows, input, 1).rows == map[1 := EmployeeRow(Some(1), Some("a"), Some("b"), Some("r"))]
  {
    var input := EmployeeRow(None, Some("a b"), Some("c"), Some("r"));
    var once := Replace(map[], input, 1);
    assert once.rows == map[1 := input.(id := Some(1))];
    var name := Name(input);
    assert name == "a" + " " + "b" + " " + "c";
    SplitKeepsFirstTwo("a", "b", "c");
    var parts := Split(name);
    assert parts[0] == "a" && parts[1] == "b";
    var twice := Replace(once.rows, input, 1);
    assert twice.result.Success?;
    assert twice.rows[1] == EmployeeRow(Some(1), Some("a"), Some("b"), Some("r"));
    assert twice.rows.Keys == {1};
  }

  class EmployeeController {
    const repository: Repository<EmployeeRow>

    /** The store is valid and every employee is stored under its own id. */
    ghost predicate Valid()
      reads this, repository
    {
      repository.Valid() && forall k :: k in repository.rows ==> repository.rows[k].id == Some(k)
    }

    constructor (repository: Repository<EmployeeRow>)
      requires repository.Valid()
      requires forall k :: k in repository.rows ==> repository.rows[k].id == Some(k)
      ensures this.repository == repository && Valid()
    {
      this.repository := repository;
    }

    /** `all`: one entry per stored employee. */
    method All() returns (employees: seq<EmployeeRow>, ids: seq<int>)
      requires Valid()
      ensures |employees| == |ids| == |repository.rows|
      ensures forall i, j :: 0 <= i < j < |ids| ==> ids[i] != ids[j]
      ensures forall i :: 0 <= i < |ids| ==> ids[i] in repository.rows && employees[i] == repository.rows[ids[i]]
      ensures forall k :: k in repository.rows ==> k in ids
    {
      employees, ids := repository.FindAll();
    }

    /**
     * `save`: an employee without an id gets a fresh one (assigned to the
     * object itself); an employee with an id is stored under it.
     */
    method Save(employee: Employee) returns (saved: EmployeeRow)
      requires Valid()
      modifies employee, repository
      ensures Valid()
      ensures old(employee.id).None? ==> employee.id == Some(old(repository.FreshId()))
      ensures old(employee.id).Some? ==> employee.id == old(employee.id)
      ensures employee.Value() == old(employee.Value()).(id := employee.id) == saved
      ensures employee.id.Some? && repository.rows == old(repository.rows)[employee.id.value := saved]
    {
      if employee.id.None? {
        employee.SetId(Some(repository.FreshId()));
      }
      saved := employee.Value();
      repository.Put(employee.id.value, saved);
    }

    /**
     * `newEmployee`: without an id the employee is added under a fresh one
     * and nothing else changes; with an id it replaces what is stored there.
     */
    method NewEmployee(newEmployee: Employee) returns (saved: EmployeeRow)
      requires Valid()
      modifies newEmployee, repository
      ensures Valid()
      ensures old(newEmployee.id).None? ==>
        saved == old(newEmployee.Value()).(id := Some(old(repository.FreshId()))) &&
        saved.id.value !in old(repository.rows)
      ensures old(newEmployee.id).Some? ==> saved == old(newEmployee.Value())
      ensures newEmployee.Value() == saved
      ensures saved.id.Some? && repository.rows == old(repository.rows)[saved.id.value := saved]
    {
      saved := Save(newEmployee);
    }

    /** `one`: the stored employee, or `EmployeeNotFound`. */
    method One(id: int) returns (r: Result<EmployeeRow, EmployeeError>)
      requires Valid()
      ensures id in repository.rows ==> r == Success(repository.rows[id])
      ensures id !in repository.rows ==> r == Failure(EmployeeNotFound(id))
    {
      var found := repository.FindById(id);
      match found
      case None => r := Failure(EmployeeNotFound(id));
      case Some(employee) => r := Success(employee);
    }

    /**
     * `replaceEmployee`: does exactly what `Replace` says. The request
     * object is given the path id when nothing is stored under it, and is
     * otherwise left as it was.
     */
    method ReplaceEmployee(newEmployee: Employee, id: int) returns (r: Result<EmployeeRow, EmployeeError>)
      requires Valid()
      modifies newEmployee, repository
      ensures Valid()
      ensures var t := Replace(old(repository.rows), old(newEmployee.Value()), id);
        repository.rows == t.rows && r == t.result
      ensures id in old(repository.rows) ==> newEmployee.Value() == old(newEmployee.Value())
      ensures id !in old(repository.rows) ==> newEmployee.Value() == old(newEmployee.Value()).(id := Some(id))
    {
      var found := repository.FindById(id);
      if found.Some? {
        var employee := new Employee.FromRow(found.value);
        var thrown := employee.SetName(newEmployee.GetName());
        if thrown.Some? {
          return Failure(thrown.value);
        }
        employee.SetRole(newEmployee.role);
        var saved := Save(employee);
        r := Success(saved);
      } else {
        newEmployee.SetId(Some(id));
        var saved := Save(newEmployee);
        r := Success(saved);
      }
    }

    /** `deleteEmployee`: the id is gone afterwards and nothing else changes. */
    method DeleteEmployee(id: int)
      requires Valid()
      modifies repository
      ensures Valid()
      ensures repository.rows == old(repository.rows) - {id}
    {
      repository.DeleteById(id);
    }
  }
}
