// The size of the task table (include/linux/sched.h).
module Limits {
  const NR_TASKS := 64
}
