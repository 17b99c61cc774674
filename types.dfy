/** The records the job market stores: employees, jobs, and the assignments a job owns
    (src/types/index.ts). Optional TypeScript properties become `Option`s; money,
    percentages and unit counts are whole numbers. */
module Types {

  datatype Option<+T> = None | Some(value: T)

  datatype JobStatus = Open | InProgress | Completed

  datatype AssignmentStatus = Working | PendingApproval | Approved

  datatype JobType = Standard | Mini

  datatype Employee = Employee(id: string, name: string, balance: int)

  datatype JobAssignment = JobAssignment(
    id: string,
    employeeId: string,
    employeeName: string,
    percentage: int,
    salaryEarned: int,
    assignedAt: string,
    status: AssignmentStatus,
    approvedAt: Option<string>,
    note: Option<string>,
    units: Option<int>)

  datatype Job = Job(
    id: string,
    title: string,
    description: string,
    totalSalary: int,
    status: JobStatus,
    createdAt: string,
    month: Option<string>,
    assignments: seq<JobAssignment>,
    expiresAt: Option<string>,
    groupId: Option<string>,
    groupName: Option<string>,
    jobType: Option<JobType>,
    unitPrice: Option<int>,
    totalUnits: Option<int>)

  /** JavaScript truthiness of an optional string: present and not empty. */
  predicate Truthy(o: Option<string>) {
    o.Some? && o.value != ""
  }

  /** `o || fallback` for an optional string. */
  function OrElse(o: Option<string>, fallback: string): string {
    if Truthy(o) then o.value else fallback
  }
}
