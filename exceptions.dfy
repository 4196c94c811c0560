/** The exception kinds the modelled code throws (include/simubase/Exceptions.h
    and the .NET exceptions of the replay sample). An operation that throws
    returns Err with one of these. */
module Exceptions {
  datatype Exception =
    | InvalidOperation
    | Argument
    | ArgumentOutOfBounds
    | NotSupported
    | IndexOutOfRange
    | NullReference
    | ThreadState
    | Failure(message: string)
    | MonotonicityError(index: nat)
    | NoReference(session: nat, sqn: nat)
    | CookieInvalid(segment: nat)
    | EntryCountInvalid(stream: nat, sqn: nat, segment: nat)
    | CycleInvalid(stream: nat, segment: nat, sqn: nat)
    | CommandLine(message: string)
}
