/** Option and Result types shared by every module, and the error kinds the
    system raises (each Python `ValueError`/`KeyError` path becomes an `Err`). */
module Wrappers {

  datatype Option<+T> = None | Some(value: T)

  /** Why a computation failed. */
  datatype Error =
    | EmptyRecordSet                      // "La lista de bases no puede estar vacía"
    | InvalidDate(text: string)           // retirement date or a record month is not "MM/YYYY"
    | InvalidYear(text: string)           // a merged month has no whole number after its first '/'
    | InvalidRegime(text: string)         // access regime is not GENERAL / AUTONOMO
    | InvalidSex(text: string)            // request sex is not MASCULINO / FEMENINO
    | NegativeBase(value: real)           // "Base negativa encontrada"
    | EmptyTable(table: string)           // `min()` over an empty reference table
    | ZeroDivisor                         // regulatory base divided by a zero divisor
    | MissingStatistics                   // statistics of an empty window have no regulatory base

  datatype Result<+T> = Ok(value: T) | Err(error: Error) {
    predicate IsFailure() { Err? }

    function PropagateFailure<U>(): Result<U>
      requires Err?
    {
      Err(error)
    }

    function Extract(): T
      requires Ok?
    {
      value
    }
  }
}
