/** Shared vocabulary: C integer ranges, identifiers, limits and error codes. */
module Base {
  datatype Option<+T> = None | Some(value: T)

  type byte = x: int | 0 <= x < 256

  const TWO16 := 0x1_0000
  const TWO31 := 0x8000_0000
  const TWO32 := 0x1_0000_0000

  const NUL := '\0'
  const LF := '\n'

  // gui.h
  const GUI_MAX_REQUESTS := 16

  const GUI_SUCCESS := 0
  const GUI_ERR_PARAMETER := 3
  const GUI_ERR_TIMERID_INVALID := 4
  const GUI_ERR_TIMERS_FULL := 5
  const GUI_ERR_NOTIFYID_INVALID := 10
  const GUI_ERR_NOTIFIES_FULL := 11
  const GUI_ERR_REQUESTID_INVALID := 12
  const GUI_ERR_REQUESTS_FULL := 13
  const GUI_ERR_NO_MEMORY := 14
  const GUI_ERR_IPC_SEND := 15
  const GUI_ERR_RESP_TIMEOUT := 16
  const GUI_ERR_SHM_ALLOCATE := 17
  const GUI_ERR_SHM_ATTACH := 18
  const GUI_ERR_SHM_REMOVE := 19
  const GUI_ERR_SHM_DETACH := 20

  // dbgx.c
  const PARAM_NUM := 2048

  // ipc.h
  const NUM_MAX_MESSAGES := 32
  const MAX_MESSAGE_SIZE := 512
  const HDR_SIZE := 12

  const IPC_SUCCESS := 0
  const IPC_ERR_TIMEOUT := 2
  const IPC_ERR_MSG_RECV := 3
  const IPC_ERR_MSG_SEND := 5
  const IPC_ERR_INVALID_TASKID := 6
  const IPC_ERR_PARAMETER := 7
  const IPC_ERR_NO_MEMORY := 8
  const IPC_ERR_MSG_FORMAT := 9
  const IPC_ERR_SHM_ALLOCATE := 10
  const IPC_ERR_SHM_ATTACH := 11
  const IPC_ERR_RCV_BUFF_SMALL := 12
  const IPC_ERR_SHM_REMOVE := 13
  const IPC_ERR_SHM_DETACH := 14

  const MSG_TYPE_SHORT_REQUEST := 3
  const MSG_TYPE_LONG_REQUEST := 4
  const MSG_TYPE_SHORT_RESPONSE := 5
  const MSG_TYPE_LONG_RESPONSE := 6

  // tsk_id.h
  const TSKID_MGR := 1
  const TSK_NUM := 11

  /** A callback pointer; 0 is NULL.  What a callback does when it runs is not a
      property of the pointer: each invocation is given its own script. */
  type Callback = nat

  const NULL: Callback := 0

  /** The callback the manager registers for requests typed at the console. */
  const ResponseToConsole: Callback := 1

  lemma OneMore<T>(a: set<T>, b: set<T>, x: T)
    requires b == a + {x} && x !in a
    ensures |b| == |a| + 1
  {
  }
}
