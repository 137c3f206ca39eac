/** The confidential record kept in an organisation's private collection. */
module Records {

  /** The four properties of an employee record, in declaration order. */
  datatype Employees = Employees(surname: string, name: string, dni: int, hiringDate: string)
}
