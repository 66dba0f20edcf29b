/** The policy arithmetic of the runtime supervisor in src/ztask_start.c: when the timer
    and socket threads wake a sleeping worker, the weight each worker gets, the `sleep`
    counter a worker keeps around its wait, the layout of the thread slots, the log
    reopen message and the registration of the built-in modules. Threads, the mutex
    and the condition variable are not modelled; the wait is one sequential step. */
module Supervisor {
  import opened ModuleRegistry

  /** wakeup: signal the condition variable when at most `busy` of the `count` workers
      are awake, that is when `sleep >= count - busy`. */
  function Wakeup(sleep: int, count: int, busy: int): (signal: bool)
    ensures signal <==> count - sleep <= busy
  {
    sleep >= count - busy
  }

  /** The timer thread passes `busy = count - 1`: it signals as soon as one worker sleeps. */
  lemma TimerWakeup(sleep: int, count: int)
    ensures Wakeup(sleep, count, count - 1) <==> sleep >= 1
  {
  }

  /** The socket thread passes `busy = 0`: it signals only when every worker sleeps. */
  lemma SocketWakeup(sleep: int, count: int)
    ensures Wakeup(sleep, count, 0) <==> sleep >= count
  {
  }

  /** The static `weight[]` table of `start`. */
  const WeightTable: seq<int> := [-1, -1, -1, -1, 0, 0, 0, 0,
                                  1, 1, 1, 1, 1, 1, 1, 1,
                                  2, 2, 2, 2, 2, 2, 2, 2,
                                  3, 3, 3, 3, 3, 3, 3, 3]

  /** The weight of worker `i`: its table entry, 0 past the end of the table. */
  function WorkerWeight(i: nat): (w: int)
    ensures -1 <= w <= 3
  {
    if i < |WeightTable| then WeightTable[i] else 0
  }

  /** The weight ladder: 0-3 give -1, 4-7 give 0, 8-15 give 1, 16-23 give 2, 24-31 give 3
      and every later worker 0. */
  lemma WeightLadder(i: nat)
    ensures i < 4 ==> WorkerWeight(i) == -1
    ensures 4 <= i < 8 ==> WorkerWeight(i) == 0
    ensures 8 <= i < 16 ==> WorkerWeight(i) == 1
    ensures 16 <= i < 24 ==> WorkerWeight(i) == 2
    ensures 24 <= i < 32 ==> WorkerWeight(i) == 3
    ensures 32 <= i ==> WorkerWeight(i) == 0
  {
  }

  /** The threads `start` creates, by slot. */
  datatype Thread = MonitorThread | TimerThread | SocketThread | WorkerThread(id: nat, weight: int)

  /** start: slots 0, 1 and 2 hold the monitor, timer and socket threads; worker `i`, with
      its weight, goes into slot `i + 3`; then every one of the `thread + 3` slots is
      joined, in slot order. */
  method Start(thread: nat) returns (pid: array<Thread>, joined: seq<nat>)
    ensures pid.Length == thread + 3
    ensures pid[0] == MonitorThread && pid[1] == TimerThread && pid[2] == SocketThread
    ensures forall k :: 3 <= k < thread + 3 ==> pid[k] == WorkerThread(k - 3, WorkerWeight(k - 3))
    ensures |joined| == thread + 3 && forall k :: 0 <= k < thread + 3 ==> joined[k] == k
  {
    pid := new Thread[thread + 3](_ => MonitorThread);
    pid[0] := MonitorThread;
    pid[1] := TimerThread;
    pid[2] := SocketThread;
    var i := 0;
    while i < thread
      invariant 0 <= i <= thread
      invariant pid[0] == MonitorThread && pid[1] == TimerThread && pid[2] == SocketThread
      invariant forall k :: 3 <= k < i + 3 ==> pid[k] == WorkerThread(k - 3, WorkerWeight(k - 3))
    {
      var weight := if i < |WeightTable| then WeightTable[i] else 0;
      pid[i + 3] := WorkerThread(i, weight);
      i := i + 1;
    }
    joined := [];
    i := 0;
    while i < thread + 3
      invariant 0 <= i <= thread + 3
      invariant |joined| == i && forall k :: 0 <= k < i ==> joined[k] == k
    {
      joined := joined + [i];
      i := i + 1;
    }
  }

  /** What a thread does to the condition variable. */
  datatype CondOp = NoSignal | SignalOne | Broadcast

  /** `struct monitor`: the worker count, the number of sleeping workers and the quit flag. */
  class Monitor {
    const count: int
    var sleep: int
    var quit: bool

    /** start: `count = thread`, `sleep = 0`, and `quit = 0` from the memset. */
    constructor (thread: nat)
      ensures count == thread && sleep == 0 && !quit
    {
      count := thread;
      sleep := 0;
      quit := false;
    }

    /** The bracket of `thread_worker` when the dispatcher found nothing: `sleep` goes up,
        the worker waits unless `quit` is set, and `sleep` comes down again. It returns
        whether it waited and the `sleep` value other threads see during the wait. */
    method Idle() returns (waited: bool, sleepingDuringWait: int)
      modifies this
      ensures sleep == old(sleep) && quit == old(quit)
      ensures waited <==> !old(quit)
      ensures sleepingDuringWait == old(sleep) + 1
    {
      sleep := sleep + 1;
      sleepingDuringWait := sleep;
      waited := false;
      if !quit {
        // uv_cond_wait
        waited := true;
      }
      sleep := sleep - 1;
    }

    /** One round of `thread_timer`: with no service left it sets `quit` and broadcasts;
        otherwise it wakes one worker when at least one sleeps. */
    method TimerTick(total: nat) returns (op: CondOp)
      modifies this
      ensures sleep == old(sleep)
      ensures total == 0 ==> quit && op == Broadcast
      ensures total != 0 ==> quit == old(quit) && (op == SignalOne <==> sleep >= 1) && op != Broadcast
    {
      if total == 0 {
        quit := true;
        return Broadcast;
      }
      TimerWakeup(sleep, count);
      op := if Wakeup(sleep, count, count - 1) then SignalOne else NoSignal;
    }

    /** One round of `thread_socket` after `ztask_socket_poll` returned `r`: 0 stops the
        thread, a negative value stops it only when no service is left and otherwise
        polls again, and a positive one wakes a worker only if every worker sleeps. */
    method SocketEvent(r: int, total: nat) returns (op: CondOp, stop: bool)
      ensures stop <==> r == 0 || (r < 0 && total == 0)
      ensures op == SignalOne <==> r > 0 && sleep >= count
      ensures op != Broadcast
    {
      if r == 0 {
        return NoSignal, true;
      }
      if r < 0 {
        return NoSignal, total == 0;
      }
      SocketWakeup(sleep, count);
      op := if Wakeup(sleep, count, 0) then SignalOne else NoSignal;
      stop := false;
    }
  }

  /** PTYPE_SYSTEM */
  const PTypeSystem: nat := 0

  /** MESSAGE_TYPE_SHIFT: the type sits in the top 8 bits of a 64-bit size word. */
  const MessageTypeShift: nat := 56

  const TypeUnit: nat := 0x100_0000_0000_0000

  /** The size word of a message of type `t` and length `len`: for a type that fits in
      8 bits and a length below 2^56, the word fits in 64 bits and keeps the two apart. */
  function PackSize(t: nat, len: nat): (sz: nat)
    ensures t < 256 && len < TypeUnit ==>
      MessageType(sz) == t && MessageLength(sz) == len && sz < 256 * TypeUnit
  {
    t * TypeUnit + len
  }

  function MessageType(sz: nat): nat
  {
    sz / TypeUnit
  }

  function MessageLength(sz: nat): nat
  {
    sz % TypeUnit
  }

  /** `struct ztask_message`; `data` is None for NULL. */
  datatype Message = Message(source: nat, session: int, data: Option<nat>, sz: nat)

  /** A message pushed to a service handle. */
  datatype Push = Push(handle: nat, msg: Message)

  /** signal_hup: a system message of length 0 from source 0, session 0, with no data,
      pushed to the service registered as "logger" when there is one (handle 0: none). */
  function SignalHup(findName: string -> nat): (push: Option<Push>)
    ensures push.Some? <==> findName("logger") != 0
    ensures push.Some? ==> push.value.handle == findName("logger")
    ensures push.Some? ==> var msg := push.value.msg;
      msg.source == 0 && msg.session == 0 && msg.data.None? &&
      MessageType(msg.sz) == PTypeSystem && MessageLength(msg.sz) == 0
  {
    var smsg := Message(0, 0, None, PackSize(PTypeSystem, 0));
    var logger := findName("logger");
    if logger != 0 then Some(Push(logger, smsg)) else None
  }

  /** The four modules compiled into the runtime, in registration order. Their library is
      NULL; `signal` is set for snlua only. The three others keep whatever their own
      allocation left in it, given as `unset[0]`, `unset[1]` and `unset[2]`. */
  function Builtins(unset: seq<Option<Fn>>): (mods: seq<Module>)
    requires |unset| == 3
    ensures |mods| == 4
    ensures forall i :: 0 <= i < 4 ==> mods[i].lib.None? && mods[i].init.Some?
  {
    [Module("snc", None, Some(Fn("snc_create")), Some(Fn("snc_init")), Some(Fn("snc_release")), unset[0]),
     Module("logger", None, Some(Fn("logger_create")), Some(Fn("logger_init")), Some(Fn("logger_release")), unset[1]),
     Module("snlua", None, Some(Fn("snlua_create")), Some(Fn("snlua_init")), Some(Fn("snlua_release")),
            Some(Fn("snlua_signal"))),
     Module("harbor", None, Some(Fn("harbor_create")), Some(Fn("harbor_init")), Some(Fn("harbor_release")), unset[2])]
  }

  /** ztask_module_reg: inserts snc, logger, snlua and harbor, in that order. */
  method RegisterBuiltins(reg: Registry, unset: seq<Option<Fn>>)
    requires |unset| == 3
    requires reg.Valid() && reg.count + 4 <= MaxModuleType
    requires forall i :: 0 <= i < reg.count ==> reg.m[i].name !in {"snc", "logger", "snlua", "harbor"}
    modifies reg, reg.m
    ensures reg.Valid() && reg.count == old(reg.count) + 4
    ensures reg.m[..reg.count] == old(reg.m[..reg.count]) + Builtins(unset)
  {
    reg.Insert(Module("snc", None, Some(Fn("snc_create")), Some(Fn("snc_init")), Some(Fn("snc_release")), unset[0]));
    reg.Insert(Module("logger", None, Some(Fn("logger_create")), Some(Fn("logger_init")), Some(Fn("logger_release")), unset[1]));
    reg.Insert(Module("snlua", None, Some(Fn("snlua_create")), Some(Fn("snlua_init")), Some(Fn("snlua_release")),
                      Some(Fn("snlua_signal"))));
    reg.Insert(Module("harbor", None, Some(Fn("harbor_create")), Some(Fn("harbor_init")), Some(Fn("harbor_release")), unset[2]));
  }
}
