/** The module registry of src/ztask_module.c: a fixed table of at most 32 service
    modules looked up by name, the search-path expansion that finds the library of a
    module that is not yet loaded, and the resolution of its four entry points.
    The library loader (`uv_dlopen`, `uv_dlsym`) is a pair of function parameters. */
module ModuleRegistry {

  datatype Option<T> = None | Some(value: T)

  /** MAX_MODULE_TYPE */
  const MaxModuleType: nat := 32

  /** A loaded library: the `handle` of a `uv_lib_t`. */
  datatype Lib = Lib(handle: nat)

  /** An entry point, named by its symbol. */
  datatype Fn = Fn(symbol: string)

  /** `struct ztask_module`: a name, its library (NULL for a built-in module) and the
      four hooks, each possibly NULL. */
  datatype Module = Module(name: string, lib: Option<Lib>, create: Option<Fn>,
                           init: Option<Fn>, release: Option<Fn>, signal: Option<Fn>)

  /** The outcome of `_try_open`: a library, the search path used up, or the exit(1)
      taken on a template without `?`. */
  datatype OpenResult = Opened(lib: Lib) | Exhausted | InvalidPath

  /** The outcome of `ztask_module_query`: an entry of the table, NULL, or the process
      exit made inside `_try_open`. */
  datatype Lookup = Entry(index: nat) | NotFound | Aborted

  /** The index of the first `c` in `s`, |s| when there is none (strchr, and the scan
      for `?` in `_try_open`). */
  function Find(s: string, c: char): (k: nat)
    ensures k <= |s|
    ensures k < |s| ==> s[k] == c
    ensures forall i :: 0 <= i < k ==> s[i] != c
  {
    if s == [] then 0 else if s[0] == c then 0 else 1 + Find(s[1..], c)
  }

  /** The index of the last `c` in `s`, -1 when there is none (strrchr). */
  function FindLast(s: string, c: char): (k: int)
    ensures -1 <= k < |s|
    ensures k >= 0 ==> s[k] == c
    ensures forall i :: k < i < |s| ==> s[i] != c
  {
    if s == [] then -1
    else if s[|s| - 1] == c then |s| - 1
    else FindLast(s[..|s| - 1], c)
  }

  /** The templates `_try_open` visits in a `;`-separated search path: `;` characters
      are skipped, and each template runs up to the next `;` or the end. */
  function Templates(path: string): (ts: seq<string>)
    decreases |path|
    ensures forall t :: t in ts ==> t != [] && ';' !in t
  {
    if path == [] then []
    else if path[0] == ';' then Templates(path[1..])
    else
      var k := Find(path, ';');
      [path[..k]] + Templates(path[k..])
  }

  /** `s` without its `;` characters. */
  function Unseparated(s: string): string
  {
    if s == [] then [] else (if s[0] == ';' then [] else [s[0]]) + Unseparated(s[1..])
  }

  function Concat(ts: seq<string>): string
  {
    if ts == [] then [] else ts[0] + Concat(ts[1..])
  }

  /** The candidate file name of one template: the text before its first `?`, the
      module name, the text after that `?`; None for a template without `?`. */
  function Expand(template: string, name: string): (r: Option<string>)
    ensures r.None? <==> '?' !in template
  {
    var q := Find(template, '?');
    if q == |template| then None else Some(template[..q] + name + template[q + 1..])
  }

  /** `_try_open` on the templates of the path: the first candidate that opens wins;
      a template without `?` ends the process; no template left gives NULL. */
  function OpenFirst(templates: seq<string>, name: string, dlopen: string -> Option<Lib>): OpenResult
  {
    if templates == [] then Exhausted
    else match Expand(templates[0], name)
      case None => InvalidPath
      case Some(candidate) =>
        if dlopen(candidate).Some? then Opened(dlopen(candidate).value)
        else OpenFirst(templates[1..], name, dlopen)
  }

  /** get_api's symbol: `name` followed by `api`, keeping what follows the last `.`. */
  function SymbolName(name: string, api: string): (sym: string)
    ensures '.' !in sym
    ensures |sym| <= |name + api| && sym == (name + api)[|name + api| - |sym|..]
    ensures |sym| < |name + api| ==> (name + api)[|name + api| - |sym| - 1] == '.'
  {
    var full := name + api;
    var d := FindLast(full, '.');
    if d < 0 then full else full[d + 1..]
  }

  /** The part of a module name after its last `.`. */
  function LastSegment(name: string): string
  {
    var d := FindLast(name, '.');
    if d < 0 then name else name[d + 1..]
  }

  /** get_api: looks the symbol up in the module's library. */
  function GetApi(mod: Module, api: string, dlsym: (Lib, string) -> Option<Fn>): (fp: Option<Fn>)
    requires mod.lib.Some?
    ensures '.' !in api ==> fp == dlsym(mod.lib.value, LastSegment(mod.name) + api)
  {
    if '.' in api then dlsym(mod.lib.value, SymbolName(mod.name, api))
    else SymbolNameSplits(mod.name, api); dlsym(mod.lib.value, SymbolName(mod.name, api))
  }

  /** open_sym: fills the four hooks of `mod` from its library; the flag reports failure,
      which happens exactly when there is no `_init`. */
  function OpenSym(mod: Module, dlsym: (Lib, string) -> Option<Fn>): (r: (Module, bool))
    requires mod.lib.Some?
    ensures r.0.name == mod.name && r.0.lib == mod.lib
    ensures r.0.create == GetApi(mod, "_create", dlsym) && r.0.init == GetApi(mod, "_init", dlsym)
    ensures r.0.release == GetApi(mod, "_release", dlsym) && r.0.signal == GetApi(mod, "_signal", dlsym)
    ensures r.1 <==> r.0.init.None?
  {
    var m := mod.(create := GetApi(mod, "_create", dlsym), init := GetApi(mod, "_init", dlsym),
                  release := GetApi(mod, "_release", dlsym), signal := GetApi(mod, "_signal", dlsym));
    (m, m.init == None)
  }

  /** The entry `ztask_module_query` adds for a name that is not in the table yet:
      None when no library opens or it has no `_init`; the exit is `InvalidPath`. */
  function Load(path: string, name: string, dlopen: string -> Option<Lib>,
                dlsym: (Lib, string) -> Option<Fn>): (r: (OpenResult, Option<Module>))
    ensures r.1.Some? ==> r.0.Opened? && r.1.value.name == name && r.1.value.lib == Some(r.0.lib)
    ensures r.1.Some? ==> r.1.value.init.Some?
  {
    var outcome := OpenFirst(Templates(path), name, dlopen);
    if outcome.Opened? then
      var resolved := OpenSym(Module(name, Some(outcome.lib), None, None, None, None), dlsym);
      (outcome, if resolved.1 then None else Some(resolved.0))
    else (outcome, None)
  }

  /** (void *)(intptr_t)(~0): the instance of a module without `create`, on a 64-bit target. */
  const InvalidInstance: nat := 0xFFFF_FFFF_FFFF_FFFF

  /** A call the registry makes into a module's hook. */
  datatype HookCall = CallRelease(hook: Fn, inst: nat) | CallSignal(hook: Fn, inst: nat, signal: int)

  /** ztask_module_instance_create: the `create` hook's instance, or the sentinel. */
  function InstanceCreate(mod: Module, create: Fn -> nat): (inst: nat)
    ensures mod.create.None? ==> inst == InvalidInstance
    ensures mod.create.Some? ==> inst == create(mod.create.value)
  {
    match mod.create
    case Some(f) => create(f)
    case None => InvalidInstance
  }

  /** ztask_module_instance_release: the calls it makes. */
  function InstanceRelease(mod: Module, inst: nat): (calls: seq<HookCall>)
    ensures calls == [] <==> mod.release.None?
    ensures calls != [] ==> calls == [CallRelease(mod.release.value, inst)]
  {
    if mod.release.Some? then [CallRelease(mod.release.value, inst)] else []
  }

  /** ztask_module_instance_signal: the calls it makes. */
  function InstanceSignal(mod: Module, inst: nat, signal: int): (calls: seq<HookCall>)
    ensures calls == [] <==> mod.signal.None?
    ensures calls != [] ==> calls == [CallSignal(mod.signal.value, inst, signal)]
  {
    if mod.signal.Some? then [CallSignal(mod.signal.value, inst, signal)] else []
  }

  lemma {:induction false} FindPrefix(before: string, c: char, after: string)
    requires c !in before
    ensures Find(before + [c] + after, c) == |before|
  {
    if before != [] {
      assert (before + [c] + after)[1..] == before[1..] + [c] + after;
      FindPrefix(before[1..], c, after);
    }
  }

  /** The template `before?after`, with no `?` in `before`, expands to `before name after`. */
  lemma ExpandSubstitutes(before: string, after: string, name: string)
    requires '?' !in before
    ensures Expand(before + "?" + after, name) == Some(before + name + after)
  {
    var t := before + "?" + after;
    FindPrefix(before, '?', after);
    assert t[..|before|] == before && t[|before| + 1..] == after;
  }

  lemma {:induction false} UnseparatedAppend(a: string, b: string)
    ensures Unseparated(a + b) == Unseparated(a) + Unseparated(b)
  {
    if a != [] {
      assert (a + b)[1..] == a[1..] + b;
      UnseparatedAppend(a[1..], b);
    } else {
      assert a + b == b;
    }
  }

  lemma {:induction false} UnseparatedPlain(s: string)
    requires ';' !in s
    ensures Unseparated(s) == s
  {
    if s != [] {
      UnseparatedPlain(s[1..]);
    }
  }

  /** The templates together hold every character of the path except the separators,
      in order: the split loses and invents nothing. */
  lemma {:induction false} TemplatesCover(path: string)
    ensures Concat(Templates(path)) == Unseparated(path)
    decreases |path|
  {
    if path == [] {
    } else if path[0] == ';' {
      TemplatesCover(path[1..]);
    } else {
      var k := Find(path, ';');
      TemplatesCover(path[k..]);
      assert path == path[..k] + path[k..];
      UnseparatedAppend(path[..k], path[k..]);
      UnseparatedPlain(path[..k]);
      assert Templates(path)[1..] == Templates(path[k..]);
    }
  }

  /** `_try_open` ends with NULL exactly when every template expands and none opens. */
  lemma {:induction false} OpenFirstExhausted(ts: seq<string>, name: string, dlopen: string -> Option<Lib>)
    ensures OpenFirst(ts, name, dlopen) == Exhausted <==>
      forall i :: 0 <= i < |ts| ==> Expand(ts[i], name).Some? && dlopen(Expand(ts[i], name).value).None?
  {
    if ts != [] {
      OpenFirstExhausted(ts[1..], name, dlopen);
      assert forall i :: 1 <= i < |ts| ==> ts[i] == ts[1..][i - 1];
    }
  }

  /** The library `_try_open` returns is the one of the first template that opens; every
      template before it expanded and failed to open. */
  lemma {:induction false} OpenFirstOpened(ts: seq<string>, name: string, dlopen: string -> Option<Lib>)
    returns (i: nat)
    requires OpenFirst(ts, name, dlopen).Opened?
    ensures i < |ts| && Expand(ts[i], name).Some?
    ensures dlopen(Expand(ts[i], name).value) == Some(OpenFirst(ts, name, dlopen).lib)
    ensures forall j :: 0 <= j < i ==> Expand(ts[j], name).Some? && dlopen(Expand(ts[j], name).value).None?
  {
    if dlopen(Expand(ts[0], name).value).Some? {
      i := 0;
    } else {
      var k := OpenFirstOpened(ts[1..], name, dlopen);
      i := k + 1;
      assert forall j :: 1 <= j < i ==> ts[j] == ts[1..][j - 1];
    }
  }

  lemma {:induction false} FindLastAppend(a: string, b: string, c: char)
    requires c !in b
    ensures FindLast(a + b, c) == FindLast(a, c)
    decreases |b|
  {
    if b != [] {
      assert (a + b)[..|a + b| - 1] == a + b[..|b| - 1];
      FindLastAppend(a, b[..|b| - 1], c);
    } else {
      assert a + b == a;
    }
  }

  /** For an API suffix without `.`, the symbol is the last segment of the module name
      followed by the suffix. */
  lemma SymbolNameSplits(name: string, api: string)
    requires '.' !in api
    ensures SymbolName(name, api) == LastSegment(name) + api
  {
    FindLastAppend(name, api, '.');
    var d := FindLast(name, '.');
    if d >= 0 {
      SliceAppend(name, api, d + 1);
    }
  }

  lemma SliceAppend(a: string, b: string, i: nat)
    requires i <= |a|
    ensures (a + b)[i..] == a[i..] + b
  {
  }

  /** The worked case: module `a.b` and API `_init` give the symbol `b_init`. */
  lemma SymbolNameExample()
    ensures SymbolName("a.b", "_init") == "b_init"
  {
    SymbolNameSplits("a.b", "_init");
    assert FindLast("a.b", '.') == 1;
  }

  /** The `while (*path == ';') path++` step of `_try_open`. */
  method SkipSeparators(path: string, p: nat) returns (q: nat)
    requires p <= |path|
    ensures p <= q <= |path| && (q < |path| ==> path[q] != ';')
    ensures Templates(path[q..]) == Templates(path[p..])
  {
    q := p;
    while q < |path| && path[q] == ';'
      invariant p <= q <= |path|
      invariant Templates(path[q..]) == Templates(path[p..])
    {
      assert path[q..][1..] == path[q + 1..];
      q := q + 1;
    }
  }

  /** `strchr(path, ';')`, or the end of the string: the end of the template at `p`. */
  method SegmentEnd(path: string, p: nat) returns (l: nat)
    requires p < |path| && path[p] != ';'
    ensures p < l <= |path|
    ensures Templates(path[p..]) == [path[p..l]] + Templates(path[l..])
  {
    l := p;
    while l < |path| && path[l] != ';'
      invariant p <= l <= |path|
      invariant forall k :: p <= k < l ==> path[k] != ';'
    {
      l := l + 1;
    }
    var rest := path[p..];
    assert Find(rest, ';') == l - p;
    assert rest[..l - p] == path[p..l] && rest[l - p..] == path[l..];
  }

  /** The candidate built in `tmp` from the template `path[p..l]`: its text up to the
      first `?`, the name, and its text after that `?`; None for the exit(1) taken on a
      template without `?`. */
  method Candidate(path: string, p: nat, l: nat, name: string) returns (r: Option<string>)
    requires p <= l <= |path|
    ensures r == Expand(path[p..l], name)
  {
    ghost var segment := path[p..l];
    var len := l - p;
    var tmp := "";
    var i := 0;
    while i < len && path[p + i] != '?'
      invariant 0 <= i <= len
      invariant tmp == path[p..p + i]
      invariant forall k :: 0 <= k < i ==> segment[k] != '?'
    {
      tmp := tmp + [path[p + i]];
      i := i + 1;
    }
    assert Find(segment, '?') == i;
    tmp := tmp + name;
    if i < len {
      tmp := tmp + path[p + i + 1..l];
      assert segment[..i] == path[p..p + i] && segment[i + 1..] == path[p + i + 1..l];
      return Some(tmp);
    }
    // "Invalid C service path"
    return None;
  }

  /** After `open_sym`, each hook is the library's `<last segment of the name><suffix>`
      symbol: `release` and `signal` are called exactly when the library exports them, and
      without `_create` the instance is the sentinel. */
  lemma ResolvedHooks(mod: Module, dlsym: (Lib, string) -> Option<Fn>, res: Module,
                      inst: nat, signal: int, create: Fn -> nat)
    requires mod.lib.Some? && res == OpenSym(mod, dlsym).0
    ensures res.init == dlsym(mod.lib.value, LastSegment(mod.name) + "_init")
    ensures InstanceRelease(res, inst) != [] <==>
      dlsym(mod.lib.value, LastSegment(mod.name) + "_release").Some?
    ensures InstanceSignal(res, inst, signal) != [] <==>
      dlsym(mod.lib.value, LastSegment(mod.name) + "_signal").Some?
    ensures dlsym(mod.lib.value, LastSegment(mod.name) + "_create").None? ==>
      InstanceCreate(res, create) == InvalidInstance
  {
    assert '.' !in "_init" && '.' !in "_create" && '.' !in "_release" && '.' !in "_signal";
  }

  /** `_try_open`: walks the search path, skipping `;` characters, cutting each template
      at the next `;`, turning it into a candidate and trying to open that; it stops at
      the first library that opens, at the end of the path, or (exit(1)) at a template
      without `?`. */
  method TryOpen(path: string, name: string, dlopen: string -> Option<Lib>) returns (r: OpenResult)
    ensures r == OpenFirst(Templates(path), name, dlopen)
  {
    var p := 0;
    while true
      invariant 0 <= p <= |path|
      invariant OpenFirst(Templates(path[p..]), name, dlopen) == OpenFirst(Templates(path), name, dlopen)
      decreases |path| - p
    {
      p := SkipSeparators(path, p);
      if p == |path| {
        return Exhausted;
      }
      var l := SegmentEnd(path, p);
      var candidate := Candidate(path, p, l, name);
      if candidate.None? {
        return InvalidPath;
      }
      var lib := dlopen(candidate.value);
      assert Templates(path[p..])[0] == path[p..l] && Templates(path[p..])[1..] == Templates(path[l..]);
      p := l;
      if lib.Some? {
        return Opened(lib.value);
      }
    }
  }

  /** `struct modules`: the table, its count and the search path. */
  class Registry {
    var count: int
    const path: string
    const m: array<Module>

    /** At most 32 entries, and no two entries share a name. */
    ghost predicate Valid()
      reads this, m
    {
      m.Length == MaxModuleType && 0 <= count <= MaxModuleType &&
      forall i, j :: 0 <= i < j < count ==> m[i].name != m[j].name
    }

    /** ztask_module_init: an empty table keeping a copy of the search path. */
    constructor (path: string)
      ensures Valid() && fresh(m) && count == 0 && this.path == path
    {
      count := 0;
      this.path := path;
      m := new Module[MaxModuleType](_ => Module("", None, None, None, None, None));
    }

    /** _query: the index of the first entry named `name`, -1 when there is none. */
    method Query(name: string) returns (r: int)
      requires Valid()
      ensures -1 <= r < count
      ensures r == -1 <==> forall i :: 0 <= i < count ==> m[i].name != name
      ensures r >= 0 ==> m[r].name == name && forall i :: 0 <= i < r ==> m[i].name != name
    {
      var i := 0;
      while i < count
        invariant 0 <= i <= count
        invariant forall k :: 0 <= k < i ==> m[k].name != name
      {
        if m[i].name == name {
          return i;
        }
        i := i + 1;
      }
      return -1;
    }

    /** ztask_module_insert: appends `mod` at index `count`; the name must be new and the
        table must have room, which the source asserts. */
    method Insert(mod: Module)
      requires Valid() && count < MaxModuleType
      requires forall i :: 0 <= i < count ==> m[i].name != mod.name
      modifies this, m
      ensures Valid() && count == old(count) + 1
      ensures m[..count] == old(m[..count]) + [mod]
    {
      var q := Query(mod.name);
      assert q == -1 && count < MaxModuleType;
      var index := count;
      m[index] := mod;
      count := count + 1;
      assert m[..count] == old(m[..count]) + [mod];
    }

    /** ztask_module_query: an entry already present is returned as it is; otherwise, if
        the table has room, the module is loaded from the search path and appended
        when its library opens and provides `_init`. At most one entry is added and the
        existing ones are never changed. */
    method QueryOrLoad(name: string, dlopen: string -> Option<Lib>,
                       dlsym: (Lib, string) -> Option<Fn>) returns (r: Lookup)
      requires Valid()
      modifies this, m
      ensures Valid() && old(count) <= count <= old(count) + 1
      ensures m[..old(count)] == old(m[..count])
      ensures forall i :: 0 <= i < old(count) && old(m[i].name) == name ==>
        r == Entry(i) && count == old(count)
      ensures r.Entry? ==> r.index < count && m[r.index].name == name
      ensures count == old(count) + 1 <==>
        (forall i :: 0 <= i < old(count) ==> old(m[i].name) != name) &&
        old(count) < MaxModuleType && Load(path, name, dlopen, dlsym).1.Some?
      ensures count == old(count) + 1 ==>
        r == Entry(old(count)) && m[old(count)] == Load(path, name, dlopen, dlsym).1.value
      ensures r == Aborted ==>
        old(count) < MaxModuleType && (forall i :: 0 <= i < old(count) ==> old(m[i].name) != name) &&
        Load(path, name, dlopen, dlsym).0 == InvalidPath
      ensures ((forall i :: 0 <= i < old(count) ==> old(m[i].name) != name) &&
               old(count) < MaxModuleType && Load(path, name, dlopen, dlsym).0 == InvalidPath) ==>
        r == Aborted
    {
      var q := Query(name);
      if q >= 0 {
        return Entry(q);
      }
      // SPIN_LOCK: the second look-up of the double-checked pattern
      q := Query(name);
      // single-threaded, the double check finds nothing either
      assert q == -1;
      r := NotFound;
      if count < MaxModuleType {
        r := LoadNew(name, dlopen, dlsym);
      }
      // SPIN_UNLOCK
    }

    /** The miss path of `ztask_module_query`: open the library into slot `count`, resolve
        its hooks, and keep the entry only when it has `init`. An invalid search path
        aborts. */
    method LoadNew(name: string, dlopen: string -> Option<Lib>,
                   dlsym: (Lib, string) -> Option<Fn>) returns (r: Lookup)
      requires Valid() && count < MaxModuleType
      requires forall i :: 0 <= i < count ==> m[i].name != name
      modifies this, m
      ensures Valid() && m[..old(count)] == old(m[..count])
      ensures Load(path, name, dlopen, dlsym).1.Some? ==>
        count == old(count) + 1 && r == Entry(old(count)) &&
        m[old(count)] == Load(path, name, dlopen, dlsym).1.value
      ensures Load(path, name, dlopen, dlsym).1.None? ==>
        count == old(count) &&
        r == (if Load(path, name, dlopen, dlsym).0 == InvalidPath then Aborted else NotFound)
    {
      var index := count;
      var dl := TryOpen(path, name, dlopen);
      r := NotFound;
      match dl {
        case InvalidPath =>
          return Aborted;
        case Exhausted =>
        case Opened(lib) =>
          m[index] := m[index].(name := name, lib := Some(lib));
          var (mod, failed) := OpenSym(m[index], dlsym);
          m[index] := mod;
          if !failed {
            m[index] := m[index].(name := name);
            count := count + 1;
            r := Entry(index);
          }
      }
      assert m[..old(count)] == old(m[..count]);
    }
  }
}
