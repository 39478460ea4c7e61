/** What the records of a login log are about: the types of usr/src/head/utmp.h. */
module Utmp {
  datatype Kind = EmptyRec | RunLevel | BootTime | OldTime | NewTime | InitProcess | LoginProcess | UserProcess
      | DeadProcess | Accounting
}
