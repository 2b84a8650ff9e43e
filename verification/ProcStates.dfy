/** The states of a process, `enum procstate` of `kernel/proc.h`. */
module ProcStates {

  datatype PState = UNUSED | USED | SLEEPING | RUNNABLE | RUNNING | ZOMBIE
}
