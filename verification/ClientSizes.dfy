// The buffers the client allocates (client/buffering/bthread.c and bcpu.c) and the entries it cuts them into.
module ClientSizes {
  const PAGE_SIZE := 4096
  const LOCAL_BUFFER_SIZE := PAGE_SIZE * 16
  const GLOBAL_BUFFER_SIZE := PAGE_SIZE * 256
  // struct pmcs_data: 3 fixed and 8 general u64 counters; struct proc_data adds one pointer.
  const PMCS_DATA_SIZE := 88
  const PROC_DATA_SIZE := 96

  // The entry size and the entry count of the per-CPU or the per-task buffer.
  function EntrySize(perCpu: bool): nat {
    if perCpu then PMCS_DATA_SIZE else PROC_DATA_SIZE
  }

  function EntryCount(perCpu: bool): nat {
    (if perCpu then GLOBAL_BUFFER_SIZE else LOCAL_BUFFER_SIZE) / EntrySize(perCpu)
  }
}
