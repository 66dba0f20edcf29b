/** The per-worker coroutine environment of src/coroutine.c: a growable table of
    coroutine slots, the live count `nco`, the capacity `cap` and the id of the
    coroutine that is `running` (-1 while the worker's main context runs).
    The stack switch itself is abstract: when a coroutine is resumed its body
    either calls `coroutine_yield` or returns a result (type `Outcome`). */
module Coroutine {

  /** COROUTINE_NONE, COROUTINE_SUSPEND, COROUTINE_RUNNING, COROUTINE_END */
  datatype State = None | Suspend | Running | End

  /** A `void *` as a value: NULL or some address. */
  datatype Ptr = Null | Addr(addr: nat)

  /** What a coroutine body does once control has been switched to it. */
  datatype Outcome = Yielded | Returned(result: Ptr)

  /** The handler and message arguments that `coroutine_new` captures. */
  datatype Call = Call(func: Ptr, context: Ptr, ud: Ptr, msgType: int, session: int,
                       source: nat, msg: Ptr, sz: nat)

  /** STACK_SIZE: every coroutine gets a 64 KiB stack. */
  const StackSize: nat := 64 * 1024

  /** The capacity of the first table. */
  const InitialCap: nat := 16

  /** The capacity `_insert_env` grows a full table to. */
  function NewCap(cap: nat): (r: nat)
    ensures r > cap
  {
    if cap == 0 then InitialCap else cap * 2
  }

  /** The capacity after `k` growths of a table created empty. */
  function CapAfter(k: nat): nat
  {
    if k == 0 then 0 else NewCap(CapAfter(k - 1))
  }

  function Pow2(k: nat): (r: nat)
    ensures r >= 1
  {
    if k == 0 then 1 else 2 * Pow2(k - 1)
  }

  /** Capacities run 0, 16, 32, 64, ...: after k >= 1 growths the table holds 16 * 2^(k-1) slots. */
  lemma {:induction false} CapAfterGeometric(k: nat)
    requires k >= 1
    ensures CapAfter(k) == InitialCap * Pow2(k - 1)
  {
    if k > 1 {
      CapAfterGeometric(k - 1);
    }
  }

  /** The slot id probed at step `i` of the search that starts at `nco`. */
  function ProbeAt(i: nat, nco: nat, cap: nat): (id: nat)
    requires cap > 0
    ensures id < cap
  {
    (i + nco) % cap
  }

  /** The number of occupied slots. */
  function CountLive(s: seq<Co?>): (n: nat)
    ensures n <= |s|
  {
    if s == [] then 0 else CountLive(s[..|s| - 1]) + (if s[|s| - 1] != null then 1 else 0)
  }

  /** The occupying coroutines, in slot order. */
  function LiveInOrder(s: seq<Co?>): seq<Co>
  {
    if s == [] then [] else LiveInOrder(s[..|s| - 1]) + (if s[|s| - 1] != null then [s[|s| - 1]] else [])
  }

  /** The set of occupying coroutines. */
  ghost function Live(s: seq<Co?>): set<Co>
  {
    set c: Co | c in s
  }

  lemma LiveStore(s: seq<Co?>, i: nat, c: Co)
    requires i < |s| && s[i] == null
    ensures Live(s[i := c]) == Live(s) + {c}
  {
    forall x: Co | x in Live(s)
      ensures x in Live(s[i := c])
    {
      var k :| 0 <= k < |s| && s[k] == x;
      assert s[i := c][k] == x;
    }
    assert s[i := c][i] == c;
  }

  lemma LiveClear(s: seq<Co?>, i: nat)
    requires i < |s| && s[i] != null
    requires forall j :: 0 <= j < |s| && j != i ==> s[j] != s[i]
    ensures Live(s[i := null]) == Live(s) - {s[i]}
  {
    forall x: Co | x in Live(s) && x != s[i]
      ensures x in Live(s[i := null])
    {
      var k :| 0 <= k < |s| && s[k] == x;
      assert s[i := null][k] == x;
    }
  }

  lemma LiveNulls(s: seq<Co?>, k: nat)
    ensures Live(s + Nulls(k)) == Live(s)
  {
    forall x: Co | x in Live(s)
      ensures x in Live(s + Nulls(k))
    {
      var j :| 0 <= j < |s| && s[j] == x;
      assert (s + Nulls(k))[j] == x;
    }
  }

  /** No coroutine occupies two slots. */
  ghost predicate Distinct(s: seq<Co?>)
  {
    forall i, j :: 0 <= i < j < |s| && s[i] != null ==> s[i] != s[j]
  }

  /** Every occupant is SUSPENDED except the one `running` names, which is RUNNING. */
  ghost predicate StatesOk(s: seq<Co?>, running: int)
    reads Live(s)
  {
    (0 <= running < |s| ==> s[running] != null && s[running].state == Running) &&
    (forall i :: 0 <= i < |s| && s[i] != null ==>
       s[i].state == Suspend || (s[i].state == Running && i == running))
  }

  /** Appending empty slots keeps both table predicates. */
  lemma GrowKeeps(s: seq<Co?>, k: nat, running: int)
    requires Distinct(s) && StatesOk(s, running) && -1 <= running < |s|
    ensures Distinct(s + Nulls(k)) && StatesOk(s + Nulls(k), running)
  {
    var t := s + Nulls(k);
    assert forall i :: 0 <= i < |s| ==> t[i] == s[i];
    assert forall i :: |s| <= i < |t| ==> t[i] == null;
    LiveNulls(s, k);
  }

  /** Freeing the running coroutine's slot keeps slots distinct and leaves every other
      occupant SUSPENDED with no coroutine running. */
  lemma ClearKeeps(s: seq<Co?>, id: nat)
    requires id < |s| && Distinct(s) && StatesOk(s, id)
    ensures Distinct(s[id := null]) && StatesOk(s[id := null], -1)
  {
  }

  /** `k` empty slots, as the memset after a realloc leaves them. */
  function Nulls(k: nat): (s: seq<Co?>)
    ensures |s| == k && forall i :: 0 <= i < k ==> s[i] == null
  {
    seq(k, _ => null)
  }

  /** The table `_insert_env` probes: grown when it is full. The old slots stay in
      front, the added ones are empty, and under `nco <= cap` there is always room. */
  function Grown(s: seq<Co?>, nco: nat): (g: seq<Co?>)
    ensures |s| <= |g| && g[..|s|] == s && forall i :: |s| <= i < |g| ==> g[i] == null
    ensures nco < |s| ==> g == s
    ensures nco <= |s| ==> nco < |g|
  {
    if nco >= |s| then s + Nulls(NewCap(|s|) - |s|) else s
  }

  /** The first step `j >= k` of the circular probe from `start` that meets an
      empty slot, or |s| when every probed slot is occupied. */
  function FirstFree(s: seq<Co?>, start: nat, k: nat): (j: nat)
    requires k <= |s|
    decreases |s| - k
    ensures k <= j <= |s|
    ensures j < |s| ==> s[ProbeAt(j, start, |s|)] == null
    ensures forall i :: k <= i < j ==> s[ProbeAt(i, start, |s|)] != null
  {
    if k == |s| then k
    else if s[ProbeAt(k, start, |s|)] == null then k
    else FirstFree(s, start, k + 1)
  }

  lemma {:induction false} LiveInOrderLength(s: seq<Co?>)
    ensures |LiveInOrder(s)| == CountLive(s)
  {
    if s != [] {
      LiveInOrderLength(s[..|s| - 1]);
    }
  }

  /** Storing a coroutine into an empty slot adds one to the live count. */
  lemma {:induction false} CountLiveStore(s: seq<Co?>, i: nat, c: Co)
    requires i < |s| && s[i] == null
    ensures CountLive(s[i := c]) == CountLive(s) + 1
  {
    var n := |s| - 1;
    if i < n {
      CountLiveStore(s[..n], i, c);
      assert s[i := c][..n] == s[..n][i := c];
    } else {
      assert s[i := c][..n] == s[..n];
    }
  }

  /** Clearing an occupied slot takes one from the live count. */
  lemma {:induction false} CountLiveClear(s: seq<Co?>, i: nat)
    requires i < |s| && s[i] != null
    ensures CountLive(s[i := null]) == CountLive(s) - 1
  {
    var n := |s| - 1;
    if i < n {
      CountLiveClear(s[..n], i);
      assert s[i := null][..n] == s[..n][i := null];
    } else {
      assert s[i := null][..n] == s[..n];
    }
  }

  /** Empty slots added at the end do not change the live count. */
  lemma {:induction false} CountLiveNulls(s: seq<Co?>, k: nat)
    ensures CountLive(s + Nulls(k)) == CountLive(s)
  {
    if k > 0 {
      CountLiveNulls(s, k - 1);
      assert (s + Nulls(k))[..|s| + k - 1] == s + Nulls(k - 1);
    } else {
      assert s + Nulls(k) == s;
    }
  }

  /** A table whose slots are all occupied has a live count equal to its size. */
  lemma {:induction false} CountLiveFull(s: seq<Co?>)
    requires forall i :: 0 <= i < |s| ==> s[i] != null
    ensures CountLive(s) == |s|
  {
    if s != [] {
      CountLiveFull(s[..|s| - 1]);
    }
  }

  /** With `start < n`, the probe reaches slot `x` at step `x - start` or `x + n - start`. */
  lemma ProbeReaches(n: nat, start: nat, x: nat) returns (j: nat)
    requires start < n && x < n
    ensures j < n && ProbeAt(j, start, n) == x
  {
    if x >= start {
      j := x - start;
      ModBelow(x, n);
    } else {
      j := x + n - start;
      ModWrap(x, n);
    }
  }

  lemma ModBelow(a: nat, n: nat)
    requires a < n
    ensures a % n == a
  {
  }

  lemma ModWrap(a: nat, n: nat)
    requires a < n
    ensures (a + n) % n == a
  {
    assert a + n == 1 * n + a;
  }

  /** Under `nco < cap` the circular probe of `_insert_env` always finds an empty slot:
      the table never answers -1. */
  lemma InsertFinds(s: seq<Co?>, start: nat)
    requires start < |s| && CountLive(s) < |s|
    ensures FirstFree(s, start, 0) < |s|
  {
    var j := FirstFree(s, start, 0);
    if j == |s| {
      forall x | 0 <= x < |s|
        ensures s[x] != null
      {
        var k := ProbeReaches(|s|, start, x);
        assert s[ProbeAt(k, start, |s|)] != null;
      }
      CountLiveFull(s);
    }
  }

  /** ztask_realloc followed by the memset of the new part: a fresh table of `newcap`
      slots holding the old slots first and empty slots after them. */
  method Realloc(src: array<Co?>, newcap: nat) returns (a: array<Co?>)
    requires src.Length <= newcap
    ensures fresh(a) && a[..] == src[..] + Nulls(newcap - src.Length)
  {
    a := new Co?[newcap](_ => null);
    var i := 0;
    while i < src.Length
      modifies a
      invariant 0 <= i <= src.Length
      invariant a[..i] == src[..i]
      invariant forall j :: i <= j < newcap ==> a[j] == null
    {
      a[i] := src[i];
      i := i + 1;
    }
    assert a[..] == src[..] + Nulls(newcap - src.Length);
  }

  /** One coroutine (`struct coroutine`): its state, its result slot and the call it runs. */
  class Co {
    var state: State
    var result: Ptr
    const call: Call
    const stackSize: nat

    /** co_new: a fresh coroutine is suspended, with a NULL result and a fresh stack. */
    constructor (call: Call)
      ensures state == Suspend && result == Null && this.call == call && stackSize == StackSize
    {
      state := Suspend;
      result := Null;
      this.call := call;
      stackSize := StackSize;
    }

    /** co_new_main: the worker's main pseudo-coroutine is running. */
    constructor Main()
      ensures state == Running && result == Null
    {
      state := Running;
      result := Null;
      call := Call(Null, Null, Null, 0, 0, 0, Null, 0);
      stackSize := 0;
    }
  }

  /** `struct coenviroment` */
  class Env {
    var nco: int
    var cap: int
    var running: int
    var aco: array<Co?>
    const main: Co
    ghost var grows: nat
    ghost var Repr: set<object>

    /** The table invariant: `nco` counts the occupied slots, `cap` is the table size
        (one of 0, 16, 32, ...), slots do not share coroutines, and the one coroutine
        that may be RUNNING is the one `running` names (-1: none, the main context runs). */
    ghost predicate Valid()
      reads this, Repr, main
    {
      this in Repr && aco in Repr && main !in Repr &&
      Repr == {this, aco} + Live(aco[..]) &&
      main.state == Running &&
      cap == aco.Length && cap == CapAfter(grows) &&
      0 <= nco <= cap && nco == CountLive(aco[..]) &&
      -1 <= running < cap &&
      Distinct(aco[..]) && StatesOk(aco[..], running)
    }

    /** The guard of `coroutine_resume`. */
    ghost predicate Resumable(id: int)
      reads this, Repr, main
      requires Valid()
    {
      0 <= id < cap && aco[id] != null && aco[id].state == Suspend
    }

    /** coroutine_init */
    constructor ()
      ensures Valid() && fresh(Repr) && fresh(main)
      ensures nco == 0 && cap == 0 && running == -1 && aco.Length == 0
    {
      nco := 0;
      cap := 0;
      running := -1;
      aco := new Co?[0];
      main := new Co.Main();
      grows := 0;
      new;
      Repr := {this, aco} + Live(aco[..]);
    }

    /** The growth step of `_insert_env`: a full table is reallocated to `NewCap(cap)`
        slots; old slots keep their coroutines and the new ones are empty. */
    method Grow()
      requires Valid() && nco >= cap
      modifies this
      ensures Valid() && fresh(aco)
      ensures aco[..] == old(aco[..]) + Nulls(NewCap(old(cap)) - old(cap))
      ensures cap == NewCap(old(cap)) && nco == old(nco) && running == old(running)
      ensures Live(aco[..]) == old(Live(aco[..]))
    {
      var newcap := if cap == 0 then 16 else cap * 2;
      ghost var t := aco[..] + Nulls(newcap - cap);
      CountLiveNulls(aco[..], newcap - cap);
      LiveNulls(aco[..], newcap - cap);
      GrowKeeps(aco[..], newcap - cap, running);
      var a := Realloc(aco, newcap);
      aco := a;
      cap := newcap;
      grows := grows + 1;
      Repr := {this, a} + Live(t);
      ValidFromParts(t);
    }

    /** The table invariant, assembled from its parts stated over the slot contents `s`. */
    lemma ValidFromParts(s: seq<Co?>)
      requires aco[..] == s && Repr == {this, aco} + Live(s) && main !in Live(s)
      requires main.state == Running && cap == aco.Length && cap == CapAfter(grows)
      requires 0 <= nco <= cap && nco == CountLive(s) && -1 <= running < cap
      requires Distinct(s) && StatesOk(s, running)
      ensures Valid()
    {
    }

    /** _insert_env: grows a full table, then stores `co` into the first empty slot met by
        the circular probe `(i + nco) % cap`, `i = 0 .. cap-1`. Under the table invariant
        the probe always succeeds, so the id is never -1. */
    method Insert(co: Co) returns (id: int)
      requires Valid() && co !in Repr && co != main && co.state == Suspend
      modifies this, aco
      ensures Valid() && Live(aco[..]) == old(Live(aco[..])) + {co}
      ensures running == old(running) && nco == old(nco) + 1
      ensures cap == if old(nco) >= old(cap) then NewCap(old(cap)) else old(cap)
      ensures 0 <= id < cap
      ensures id == ProbeAt(FirstFree(Grown(old(aco[..]), old(nco)), old(nco), 0), old(nco), cap)
      ensures aco[..] == Grown(old(aco[..]), old(nco))[id := co]
    {
      ghost var before := aco[..];
      if nco >= cap {
        Grow();
      }
      ghost var s := aco[..];
      assert s == Grown(before, old(nco));
      InsertFinds(s, nco);
      ghost var first := FirstFree(s, nco, 0);
      var i := 0;
      while i < cap
        invariant 0 <= i <= first
        invariant Valid() && aco[..] == s && nco == old(nco) && co !in Repr
      {
        var slot := (i + nco) % cap;
        assert slot == ProbeAt(i, nco, cap);
        if aco[slot] == null {
          assert i == first;
          Occupy(slot, co);
          return slot;
        }
        i := i + 1;
      }
      return -1;
    }

    /** The store of `_insert_env`: `co` goes into the empty slot `id` and `nco` grows by one. */
    method Occupy(id: nat, co: Co)
      requires Valid() && id < cap && aco[id] == null
      requires co !in Repr && co != main && co.state == Suspend
      modifies this, aco
      ensures Valid() && Live(aco[..]) == old(Live(aco[..])) + {co}
      ensures aco == old(aco) && aco[..] == old(aco[..])[id := co]
      ensures nco == old(nco) + 1 && cap == old(cap) && running == old(running) && grows == old(grows)
    {
      ghost var s := aco[..];
      ghost var t := s[id := co];
      CountLiveStore(s, id, co);
      LiveStore(s, id, co);
      aco[id] := co;
      nco := nco + 1;
      Repr := {this, aco} + Live(t);
      ValidFromParts(t);
    }

    /** coroutine_new: a fresh SUSPENDED coroutine for `call`, inserted into the table. */
    method New(call: Call) returns (id: int, ghost co: Co)
      requires Valid()
      modifies this, aco
      ensures Valid() && fresh(co) && Live(aco[..]) == old(Live(aco[..])) + {co}
      ensures co.state == Suspend && co.result == Null && co.call == call
      ensures running == old(running) && nco == old(nco) + 1
      ensures cap == if old(nco) >= old(cap) then NewCap(old(cap)) else old(cap)
      ensures 0 <= id < cap
      ensures id == ProbeAt(FirstFree(Grown(old(aco[..]), old(nco)), old(nco), 0), old(nco), cap)
      ensures aco[..] == Grown(old(aco[..]), old(nco))[id := co]
    {
      var c := new Co(call);
      co := c;
      id := Insert(c);
    }

    /** coroutine_yield: from a RUNNING coroutine, clears `running`, marks it SUSPENDED and
        switches back to main; otherwise (from main) returns NULL and changes nothing. */
    method Yield() returns (ret: Ptr)
      requires Valid()
      modifies Repr
      ensures Valid() && Repr == old(Repr)
      ensures aco == old(aco) && aco[..] == old(aco[..]) && cap == old(cap) && nco == old(nco)
      ensures old(running) == -1 ==> ret == Null && running == -1
      ensures old(running) >= 0 ==>
        running == -1 && aco[old(running)].state == Suspend && ret == aco[old(running)].result
      ensures forall j :: 0 <= j < cap && aco[j] != null ==> aco[j].result == old(aco[j].result)
      ensures forall j :: 0 <= j < cap && aco[j] != null && j != old(running) ==>
        aco[j].state == old(aco[j].state)
    {
      var id := running;
      if 0 <= id < cap {
        var co := aco[id];
        if co != null && co.state == Running {
          running := -1;
          co.state := Suspend;
          return co.result;
        }
      }
      return Null;
    }

    /** coroutine_resume: a SUSPENDED coroutine becomes RUNNING with `running == id` and its
        body runs; if it ended, its slot is freed and `nco` drops by one. Either way the main
        context is running again on return. A bad id, an empty slot or a coroutine that is
        not SUSPENDED gives NULL and changes nothing. A successful resume is made from main. */
    method Resume(id: int, body: Outcome) returns (ret: Ptr)
      requires Valid()
      requires running == -1 || !Resumable(id)
      modifies Repr
      ensures Valid() && Repr <= old(Repr)
      ensures aco == old(aco) && cap == old(cap)
      ensures forall j :: 0 <= j < cap && j != id && old(aco[j]) != null ==>
        aco[j] == old(aco[j]) && aco[j].state == old(aco[j].state) && aco[j].result == old(aco[j].result)
      ensures !old(Resumable(id)) ==>
        ret == Null && running == old(running) && nco == old(nco) && aco[..] == old(aco[..]) &&
        (0 <= id < cap && aco[id] != null ==>
           aco[id].state == old(aco[id].state) && aco[id].result == old(aco[id].result))
      ensures old(Resumable(id)) && body.Yielded? ==>
        running == -1 && nco == old(nco) && aco[..] == old(aco[..]) &&
        aco[id].state == Suspend && ret == aco[id].result && ret == old(aco[id].result)
      ensures old(Resumable(id)) && body.Returned? ==>
        running == -1 && nco == old(nco) - 1 && aco[..] == old(aco[..])[id := null] &&
        ret == body.result
    {
      if 0 <= id < cap && aco[id] != null && aco[id].state == Suspend {
        Enter(id);
        // co_switch(main, co): the body runs until it yields or returns
        match body {
          case Yielded =>
            ret := Yield();
          case Returned(r) =>
            ret := Finish(id, r);
        }
        return ret;
      }
      return Null;
    }

    /** The switch into a resumed coroutine: it becomes RUNNING and `running` names it. */
    method Enter(id: nat)
      requires Valid() && running == -1 && id < cap && aco[id] != null && aco[id].state == Suspend
      modifies this, aco[id]
      ensures Valid() && Repr == old(Repr) && aco == old(aco) && aco[..] == old(aco[..])
      ensures nco == old(nco) && cap == old(cap) && running == id
      ensures aco[id].state == Running && aco[id].result == old(aco[id].result)
    {
      running := id;
      aco[id].state := Running;
    }

    /** The running coroutine's body returned `r`: it is END, its slot is freed, `nco`
        drops by one and main runs again. */
    method Finish(id: nat, r: Ptr) returns (ret: Ptr)
      requires Valid() && id < cap && running == id
      modifies this, aco, aco[id]
      ensures Valid() && Repr == old(Repr) - {old(aco[id])}
      ensures aco == old(aco) && aco[..] == old(aco[..])[id := null]
      ensures nco == old(nco) - 1 && cap == old(cap) && running == -1
      ensures old(aco[id]).state == End && old(aco[id]).result == r && ret == r
    {
      var co := aco[id];
      ghost var s := aco[..];
      ghost var t := s[id := null];
      CountLiveClear(s, id);
      LiveClear(s, id);
      ClearKeeps(s, id);
      co.result := r;
      co.state := End;
      ret := co.result;
      aco[id] := null;
      nco := nco - 1;
      running := -1;
      Repr := {this, aco} + Live(t);
      ValidFromParts(t);
    }

    /** coroutine_current: the running id; it is -1 exactly when no coroutine is RUNNING,
        that is when the main context executes. */
    method Current() returns (r: int)
      requires Valid()
      ensures r == running
      ensures r == -1 <==> forall i :: 0 <= i < cap && aco[i] != null ==> aco[i].state != Running
      ensures r != -1 ==> 0 <= r < cap && aco[r] != null && aco[r].state == Running
    {
      return running;
    }

    /** coroutine_uninit: visits every slot and deletes the coroutines it finds, then the
        table and the main context. The deleted coroutines are returned in slot order. */
    method Uninit() returns (freed: seq<Co>)
      requires Valid()
      ensures freed == LiveInOrder(aco[..])
      ensures |freed| == nco
      ensures main !in freed
    {
      freed := [];
      var i := 0;
      while i < cap
        invariant 0 <= i <= cap
        invariant freed == LiveInOrder(aco[..i])
      {
        assert aco[..i + 1][..i] == aco[..i];
        var co := aco[i];
        if co != null {
          freed := freed + [co];
        }
        i := i + 1;
      }
      assert aco[..cap] == aco[..];
      LiveInOrderLength(aco[..]);
      LiveInOrderLive(aco[..]);
    }
  }

  lemma {:induction false} LiveInOrderLive(s: seq<Co?>)
    ensures forall c :: c in LiveInOrder(s) ==> c in s
  {
    if s != [] {
      LiveInOrderLive(s[..|s| - 1]);
    }
  }

  /** A coroutine whose body returns at once ends on its first resume, which frees its
      slot; resuming the same id again gives NULL. */
  method SpawnAndFinish(env: Env, call: Call, result: Ptr) returns (first: Ptr, second: Ptr)
    requires env.Valid() && env.running == -1
    modifies env, env.Repr
    ensures env.Valid() && env.running == -1 && env.nco == old(env.nco)
    ensures first == result && second == Null
  {
    var id, co := env.New(call);
    first := env.Resume(id, Returned(result));
    second := env.Resume(id, Returned(result));
  }

  /** A coroutine that parks once and then finishes keeps one slot while parked and frees
      it when its body returns. */
  method ParkThenFinish(env: Env, call: Call, result: Ptr) returns (parked: Ptr, done: Ptr)
    requires env.Valid() && env.running == -1
    modifies env, env.Repr
    ensures env.Valid() && env.running == -1 && env.nco == old(env.nco)
    ensures parked == Null && done == result
  {
    var id, co := env.New(call);
    assert env.nco == old(env.nco) + 1;
    parked := env.Resume(id, Yielded);
    assert env.nco == old(env.nco) + 1 && co.state == Suspend;
    done := env.Resume(id, Returned(result));
  }
}
