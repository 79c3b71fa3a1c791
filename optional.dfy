/** An optional value: a SQL query's single row, or nothing. */
module Optional {
  datatype Option<+T> = None | Some(value: T)
}
