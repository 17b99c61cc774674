/** `GET` and `POST` on /api/employees (src/app/api/employees/route.ts). The id that
    `Math.random()` would give is a parameter. */
module EmployeesRoute {

  import opened Types
  import opened Seqs
  import opened Store

  /** The employee record `POST` builds: the name from the body, no earnings yet. */
  function NewEmployee(name: string, id: string): (e: Employee)
    ensures e.id == id && e.name == name && e.balance == 0
  {
    Employee(id, name, 0)
  }

  /** `GET`: the stored list, unfiltered and in stored order. */
  method Get(db: Database) returns (r: seq<Employee>)
    ensures r == db.employees
  {
    r := db.GetAllEmployees();
  }

  /** `POST`: builds the employee and stores it after all others. */
  method Post(db: Database, name: string, id: string) returns (created: Employee)
    modifies db
    ensures created == NewEmployee(name, id)
    ensures db.employees == old(db.employees) + [created] && db.jobs == old(db.jobs)
  {
    var employee := NewEmployee(name, id);
    created := db.CreateEmployee(employee);
  }

  /** A new employee is found by id afterwards unless an earlier employee already had
      that id, since lookups return the first match. */
  lemma NewEmployeeFound(employees: seq<Employee>, name: string, id: string)
    requires FindByKey(employees, EmployeeKey, id).None?
    ensures FindByKey(employees + [NewEmployee(name, id)], EmployeeKey, id) == Some(NewEmployee(name, id))
  {
    FindAfterAppend(employees, EmployeeKey, NewEmployee(name, id));
  }
}
