# ZTask runtime core in Dafny

ZTask is a C service runtime in the style of skynet. Each worker thread keeps an
environment of coroutines, and a process-wide registry holds the service modules,
loaded from shared libraries found along a search path. A supervisor starts the
monitor, timer, socket and worker threads and decides when a sleeping worker is woken.
This project models three parts of that runtime and proves properties of them:

- `coroutine.dfy`, module `Coroutine`: the coroutine environment of
  `src/coroutine.c`.
  - `Env` and `Co` are classes. The slot table `aco` is an `array<Co?>` that
    `_insert_env` reallocates and probes in place.
  - `Env.Valid()` is the table invariant:
    - `nco` is the number of occupied slots;
    - `cap` is the table size, one of 0, 16, 32, …;
    - no coroutine occupies two slots;
    - only the coroutine `running` names can be RUNNING (-1 means the main context).
  - Every state-changing operation keeps `Valid()` and states its whole new state.
  - The stack switch is abstract. A resumed body either yields or returns a result,
    given as an `Outcome` argument.
- `ztask_module.dfy`, module `ModuleRegistry`: the module registry of
  `src/ztask_module.c`.
  - `Registry` is a class over the fixed 32-entry table. Its invariant is that entry
    names are distinct.
  - The search-path walk of `_try_open` is a loop over the path string, proved equal to
    `OpenFirst(Templates(path), …)`. Lemmas about that function state:
    - the templates cover the path;
    - each template expands by substituting the name for its first `?`;
    - the first library that opens wins;
    - NULL comes back exactly when every candidate fails to open.
  - `uv_dlopen` and `uv_dlsym` are function parameters.
- `ztask_start.dfy`, module `Supervisor`: the policy arithmetic of
  `src/ztask_start.c`:
  - the wake-up rule of the timer and socket threads;
  - the weight table of the workers;
  - the thread-slot layout of `start`;
  - the `sleep` bracket of an idle worker;
  - the log-reopen system message;
  - the registration of the four built-in modules.

## Model

| member | source | states |
|---|---|---|
| Coroutine.NewCap | src/coroutine.c:190 | defined as 16 for an empty table and double otherwise; the capacity always grows |
| Coroutine.CapAfterGeometric | src/coroutine.c:188-194 | after k >= 1 growths of a table created empty, the capacity is 16 * 2^(k-1) |
| Coroutine.ProbeAt | src/coroutine.c:198 | the probed id `(i + nco) % cap` is a valid slot |
| Coroutine.CountLive | src/coroutine.c:147-154 | the live count never exceeds the table size |
| Coroutine.FirstFree | src/coroutine.c:196-205 | the first probe step meeting an empty slot; every earlier step meets an occupied one; `cap` when all are occupied |
| Coroutine.ProbeReaches | src/coroutine.c:196-198 | the circular probe visits every slot within `cap` steps |
| Coroutine.InsertFinds | src/coroutine.c:196-207 | when fewer than `cap` slots are occupied the probe finds an empty one, so `-1` is never returned |
| Coroutine.CountLiveFull | src/coroutine.c:196-207 | a table with every slot occupied has a live count equal to its size |
| Coroutine.CountLiveStore | src/coroutine.c:201-202 | storing a coroutine into an empty slot raises the live count by one, as `nco++` does |
| Coroutine.CountLiveClear | src/coroutine.c:229-230 | clearing an occupied slot lowers the live count by one, as `nco--` does |
| Coroutine.CountLiveNulls | src/coroutine.c:191-192 | the zeroed slots appended by a growth leave the live count unchanged |
| Coroutine.LiveStore | src/coroutine.c:201 | storing into an empty slot adds exactly that coroutine to the occupants |
| Coroutine.LiveClear | src/coroutine.c:229 | clearing a slot removes exactly its coroutine from the occupants |
| Coroutine.LiveNulls | src/coroutine.c:191-192 | appended empty slots add no occupant |
| Coroutine.GrowKeeps | src/coroutine.c:188-194 | appending empty slots keeps slots distinct and keeps the running/suspended discipline |
| Coroutine.ClearKeeps | src/coroutine.c:227-231 | freeing the running coroutine's slot keeps slots distinct and leaves no coroutine RUNNING |
| Coroutine.Grown | src/coroutine.c:188-194 | the table the probe runs over: old slots in front, added slots empty, unchanged when not full, and with `nco <= cap` always a free slot after it |
| Coroutine.Nulls | src/coroutine.c:192 | the memset leaves `k` empty slots |
| Coroutine.LiveInOrderLength | src/coroutine.c:167-182 | the coroutines visited in slot order number exactly the live count |
| Coroutine.LiveInOrderLive | src/coroutine.c:167-182 | every coroutine visited is one of the table's occupants |
| Coroutine.Realloc | src/coroutine.c:191-192 | a fresh table of `newcap` slots holding the old slots first and empty slots after them |
| Coroutine.Co.constructor | src/coroutine.c:68-99 | a new coroutine is SUSPENDED with a NULL result, its call arguments and a 64 KiB stack |
| Coroutine.Co.Main | src/coroutine.c:111-125 | the main pseudo-coroutine is RUNNING with a NULL result |
| Coroutine.Env.Valid | src/coroutine.c:147-154 | the table invariant: `nco` counts the occupied slots, `cap` is the table size and one of 0, 16, 32, ..., slots hold distinct coroutines, and only the one `running` names is RUNNING |
| Coroutine.Env.constructor | src/coroutine.c:156-165 | an empty environment: `nco == 0`, `cap == 0`, `running == -1`, invariant established |
| Coroutine.Env.Grow | src/coroutine.c:188-194 | a full table becomes `NewCap(cap)` slots: old slots first, empty ones after, same occupants and count |
| Coroutine.Env.Insert | src/coroutine.c:184-208 | the id returned is the first empty slot of the circular probe from `nco` over the (possibly grown) table; `co` is stored there; nco + 1; the invariant is kept |
| Coroutine.Env.Occupy | src/coroutine.c:199-203 | storing into an empty slot adds that occupant and raises `nco`, keeping the invariant |
| Coroutine.Env.New | src/coroutine.c:210-214 | a fresh SUSPENDED coroutine with NULL result goes into the slot `_insert_env` picks; `running` is unchanged |
| Coroutine.Env.Yield | src/coroutine.c:240-255 | the running coroutine becomes SUSPENDED and `running` becomes -1, returning its result; from main, NULL and no change |
| Coroutine.Env.Resume | src/coroutine.c:216-238 | a bad id, an empty slot or a non-SUSPENDED coroutine gives NULL and no change; a yielding body leaves it SUSPENDED and returns its result; a returning body frees the slot, nco - 1, and returns the body's result; other slots are untouched and main runs afterwards |
| Coroutine.Env.Enter | src/coroutine.c:223-224 | the resumed coroutine is RUNNING and `running` names it |
| Coroutine.Env.Finish | src/coroutine.c:226-234 | an ended coroutine's slot is freed, `nco` drops, `running` is -1, and the result handed back is the body's |
| Coroutine.Env.Current | src/coroutine.c:257-259 | the running id; -1 exactly when no coroutine is RUNNING, otherwise that slot's coroutine is RUNNING |
| Coroutine.Env.Uninit | src/coroutine.c:167-182 | the deleted coroutines are the occupants in slot order, `nco` of them, and never the main context |
| Coroutine.SpawnAndFinish | src/coroutine.c:210-238 | a coroutine that returns at once ends on its first resume; a second resume of the same id gives NULL; `nco` is back where it was |
| Coroutine.ParkThenFinish | src/coroutine.c:216-255 | a coroutine that yields once gives NULL on its first resume and its result on the second, after which its slot is free again |
| ModuleRegistry.Find | src/ztask_module.c:41-42 | the index of the first occurrence, or the length when there is none |
| ModuleRegistry.FindLast | src/ztask_module.c:87 | the index of the last occurrence, or -1 when there is none |
| ModuleRegistry.FindPrefix | src/ztask_module.c:45 | the scan for `?` stops right after a `?`-free prefix |
| ModuleRegistry.Expand | src/ztask_module.c:45-55 | a template expands exactly when it holds a `?` |
| ModuleRegistry.ExpandSubstitutes | src/ztask_module.c:45-51 | `before?after` expands to `before name after` |
| ModuleRegistry.Templates | src/ztask_module.c:36-60 | the templates `_try_open` visits, in path order; every one is non-empty and free of `;` |
| ModuleRegistry.UnseparatedAppend | src/ztask_module.c:39-43 | removing separators distributes over concatenation |
| ModuleRegistry.UnseparatedPlain | src/ztask_module.c:41-43 | a segment without `;` loses nothing |
| ModuleRegistry.TemplatesCover | src/ztask_module.c:36-60 | the templates, joined, are the path without its `;` separators: the walk loses and invents nothing |
| ModuleRegistry.OpenFirst | src/ztask_module.c:36-66 | the result of `_try_open` over the templates: the first candidate that opens, the abort on a template without `?`, or NULL when none is left (characterised by OpenFirstExhausted and OpenFirstOpened) |
| ModuleRegistry.OpenFirstExhausted | src/ztask_module.c:36-66 | the walk ends with NULL exactly when every template expands and no candidate opens |
| ModuleRegistry.OpenFirstOpened | src/ztask_module.c:36-60 | the library returned is the first candidate that opens; all earlier ones expanded and failed |
| ModuleRegistry.SkipSeparators | src/ztask_module.c:39 | skips a run of `;` and stops at the first other character or the end |
| ModuleRegistry.SegmentEnd | src/ztask_module.c:41-43 | the end of the current segment is the next `;` or the end of the path |
| ModuleRegistry.Candidate | src/ztask_module.c:43-55 | builds the expansion of the current template |
| ModuleRegistry.TryOpen | src/ztask_module.c:24-67 | the search-path loop computes `OpenFirst(Templates(path), name, dlopen)` |
| ModuleRegistry.SymbolName | src/ztask_module.c:80-93 | the symbol is the longest `.`-free suffix of `name + api` (preceded by `.` when shorter) |
| ModuleRegistry.FindLastAppend | src/ztask_module.c:87 | appending a `.`-free suffix does not move the last `.` |
| ModuleRegistry.SliceAppend | src/ztask_module.c:85-92 | a suffix of a prefix, followed by the rest, is the suffix of the whole |
| ModuleRegistry.SymbolNameSplits | src/ztask_module.c:80-93 | for a `.`-free api suffix, the symbol is the name's last segment followed by the suffix |
| ModuleRegistry.SymbolNameExample | src/ztask_module.c:80-93 | module `a.b` and `_init` look up `b_init` |
| ModuleRegistry.GetApi | src/ztask_module.c:80-99 | for an api suffix without `.`, the `uv_dlsym` lookup of the name's last segment followed by the suffix |
| ModuleRegistry.OpenSym | src/ztask_module.c:101-109 | the four hooks are the library's looked-up symbols; failure exactly when `init` is missing |
| ModuleRegistry.ResolvedHooks | src/ztask_module.c:101-109 | after `open_sym`, `init` is the library's `<segment>_init`; `release` and `signal` are called exactly when the library exports them; without `_create` the instance is the sentinel |
| ModuleRegistry.Load | src/ztask_module.c:121-134 | a loaded entry carries the requested name, the opened library and an `init` hook |
| ModuleRegistry.InstanceCreate | src/ztask_module.c:154-162 | the `create` hook's instance, or the all-ones sentinel when there is no hook |
| ModuleRegistry.InstanceRelease | src/ztask_module.c:169-174 | `release` is called once with the instance exactly when the hook exists |
| ModuleRegistry.InstanceSignal | src/ztask_module.c:176-181 | `signal` is called once with the instance and number exactly when the hook exists |
| ModuleRegistry.Registry.Valid | src/ztask_module.c:13-20 | the registry invariant: a 32-entry table, at most 32 entries in use, and no two entries with the same name |
| ModuleRegistry.Registry.constructor | src/ztask_module.c:183-192 | an empty table holding the search path |
| ModuleRegistry.Registry.Query | src/ztask_module.c:69-78 | the index of the first entry with that name, -1 exactly when none has it |
| ModuleRegistry.Registry.Insert | src/ztask_module.c:141-152 | appends the module at `count`, keeping names distinct; the earlier entries are unchanged |
| ModuleRegistry.Registry.QueryOrLoad | src/ztask_module.c:111-139 | an existing entry is returned and the table unchanged; otherwise, with room, the loaded module is appended exactly when it has `init`; an invalid path aborts, and only when the name is absent and the table has room; earlier entries are unchanged |
| ModuleRegistry.Registry.LoadNew | src/ztask_module.c:121-134 | the miss path: appends `Load(...)`'s entry when there is one, otherwise leaves `count` and reports NULL or the abort |
| Supervisor.Wakeup | src/ztask_start.c:58-63 | signal exactly when at most `busy` workers are awake |
| Supervisor.TimerWakeup | src/ztask_start.c:133 | the timer wakes a worker as soon as one sleeps |
| Supervisor.SocketWakeup | src/ztask_start.c:102 | the socket thread wakes a worker only when all sleep |
| Supervisor.WorkerWeight | src/ztask_start.c:216-221 | a worker's weight lies between -1 and 3 |
| Supervisor.WeightLadder | src/ztask_start.c:207-221 | workers 0-3 get -1, 4-7 get 0, 8-15 get 1, 16-23 get 2, 24-31 get 3, later workers 0 |
| Supervisor.Start | src/ztask_start.c:181-230 | slots 0-2 hold monitor, timer and socket; slot i+3 holds worker i with its weight; all thread+3 slots are joined in order |
| Supervisor.Monitor.constructor | src/ztask_start.c:184-187 | count is the thread number, sleep 0, quit clear |
| Supervisor.Monitor.Idle | src/ztask_start.c:166-175 | the worker waits exactly when quit is clear; others see sleep + 1 during the wait; sleep is restored afterwards |
| Supervisor.Monitor.TimerTick | src/ztask_start.c:130-151 | no service left: quit and broadcast; otherwise signal exactly when a worker sleeps |
| Supervisor.Monitor.SocketEvent | src/ztask_start.c:94-103 | stop on 0, or on error with no service left; signal exactly for an event when every worker sleeps |
| Supervisor.PackSize | src/ztask_start.c:72 | the size word of a type below 256 and a length below 2^56 fits 64 bits and gives back the type and the length |
| Supervisor.SignalHup | src/ztask_start.c:65-77 | a system message of length 0 from source 0, session 0, no data, pushed to "logger" exactly when it is registered |
| Supervisor.Builtins | src/ztask_start.c:232-266 | four built-in modules, none with a library, all with `init` |
| Supervisor.RegisterBuiltins | src/ztask_start.c:232-266 | snc, logger, snlua, harbor are appended in that order |

## Left out

- The context switch (`co_switch`, `swapcontext`, fibers, `_proxyfunc`'s trampoline): the body's effect is the `Outcome` argument.
- Stack allocation, `makecontext` and `co_delete`'s frees: the model keeps only the stack size.
- Coroutine.Env.Resume: requires that a successful resume is made from the main context (`running == -1`); a resume from inside a running coroutine, which the source does not forbid, is not modelled, because it saves the caller's context into the main context's slot (`co_switch(env->main, co)`, src/coroutine.c:225) and leaves the caller RUNNING while `running` names the other coroutine, so the invariant that only the coroutine `running` names is RUNNING does not hold there.
- Coroutine.Env.Yield: its return value is the result at the moment of the switch back; what a parked coroutine sees when it is resumed later is the same slot, which nothing between the two switches changes in the model.
- Threads, the mutex, the condition variable and the spin lock: each operation is one sequential step; the monitor thread loop (`thread_monitor`) and `free_monitor` act on `ztask_monitor` objects that are not part of this model.
- `uv_dlopen`, `uv_dlsym` and the library error message: function parameters; the message printed on failure is left out.
- Byte-level buffer handling of `alloca`, `memset`, `memcpy` and `strncpy`: candidates and symbols are strings.
- `ztask_module_instance_init`: it only forwards to the module's `init` hook, a foreign call.
- The `create`, `release` and `signal` hooks themselves: their effect is a parameter or the recorded call.
- `handle_hup` and the `SIG` flag: the SIGHUP handler is never installed by this code; `signal_hup` is modelled.
- `ztask_handle_findname` and `ztask_context_push`: `findName` is a parameter and the push is returned as a value.
- `ztask_context_total`, `ztask_socket_poll`, `ztask_updatetime` and the sleep between timer ticks: their results are parameters.
- The dispatcher and message queues behind `ztask_context_message_dispatch`: not part of this model.
- Daemon mode, configuration loading and bootstrap in `ztask_start`: not part of this model.
- `PTYPE_SYSTEM` (0) and `MESSAGE_TYPE_SHIFT` (56) come from the message layout of the runtime; `ztask.h` is not part of this model.
- Supervisor.Builtins: the `signal` hooks of snc, logger and harbor are not initialised by the source (each module comes from its own `malloc`); their contents are the three independent entries of the parameter `unset`.
- Exit on failure to create the mutex or condition variable, and allocation failure: not modelled.
- C `int` widths: `nco`, `cap`, `running`, the returned id and the registry `count` are unbounded integers; the signed overflow of `env->cap * 2` (src/coroutine.c:190), reachable only past about 2^30 slots, is not modelled.
