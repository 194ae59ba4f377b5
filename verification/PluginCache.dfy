/** eval_file of the embedded Perl server: compiled plugins are kept until their
    file gets newer. */
module PluginCache {
  import opened Outcomes
  import opened PackageName
  import opened ErrorText

  type Path = string

  /** The code reference of a plugin, named by what it was compiled from. */
  datatype Handler = Handler(path: Path, content: string)

  /** What Perl makes of a plugin: it compiles, or it fails with an error and captured output. */
  datatype Outcome = Good | Bad(error: string, output: string)

  /** Compilation is a function of path and contents; `start` is the time the
      server started, in the unit of the modification times. */
  datatype Server = Server(compile: (Path, string) -> Outcome, start: int, openError: string)

  /** The three slots of a cache entry; an unset slot is None or "". */
  datatype Entry = Entry(mtime: Option<int>, error: string, handler: Option<Handler>)

  datatype State = State(cache: map<Path, Entry>, packages: map<string, Handler>)

  datatype Reply = Runs(handler: Option<Handler>) | Fails(message: string)

  datatype File = File(mtime: int, content: string)

  /** The file test -M: age at server start, undefined without a file. */
  function Age(srv: Server, file: Option<File>): Option<int> {
    match file
    case None => None
    case Some(f) => Some(srv.start - f.mtime)
  }

  /** An undefined number counts as zero in a comparison. */
  function Number(n: Option<int>): int {
    if n.Some? then n.value else 0
  }

  predicate Hit(srv: Server, st: State, path: Path, file: Option<File>) {
    && path in st.cache
    && st.cache[path].mtime.Some? && st.cache[path].mtime.value != 0
    && st.cache[path].mtime.value <= Number(Age(srv, file))
  }

  function CompileFailure(path: Path, text: string): string {
    "**ePN: failed to compile " + path + ": " + text
  }

  function OpenFailure(srv: Server, path: Path): string {
    "**ePN: failed to open " + path + ": " + srv.openError
  }

  /** What compiling the file as it is now gives. */
  function Recompiled(srv: Server, path: Path, file: Option<File>): Reply {
    match file
    case None => Fails(OpenFailure(srv, path))
    case Some(f) =>
      match srv.compile(path, f.content)
      case Good => Runs(Some(Handler(path, f.content)))
      case Bad(error, output) => Fails(CompileFailure(path, Cleaned(error) + output))
  }

  function EntryOf(st: State, path: Path): Entry {
    if path in st.cache then st.cache[path] else Entry(None, "", None)
  }

  function Dated(entry: Entry, age: int, useCache: bool): Entry {
    if useCache then entry.(mtime := Some(age)) else entry
  }

  function Compiled(srv: Server, entry: Entry, path: Path, content: string): Entry {
    match srv.compile(path, content)
    case Good => entry.(error := "", handler := Some(Handler(path, content)))
    case Bad(error, _) => entry.(error := Cleaned(error))
  }

  /** Emptying a package also drops every package inside it. */
  function Emptied(packages: map<string, Handler>, name: string): map<string, Handler> {
    map n | n in packages && n != name && !(name + "::" <= n) :: packages[n]
  }

  /** The state after the plugin has been compiled again. */
  function Refreshed(srv: Server, st: State, path: Path, f: File, useCache: bool): State {
    var entry := Dated(EntryOf(st, path), srv.start - f.mtime, useCache);
    State(st.cache[path := Compiled(srv, entry, path, f.content)],
          if srv.compile(path, f.content).Good?
          then Emptied(st.packages, PackageOf(path))[PackageOf(path) := Handler(path, f.content)]
          else Emptied(st.packages, PackageOf(path)))
  }

  function Eval(srv: Server, st: State, path: Path, file: Option<File>, useCache: bool): (State, Reply) {
    if Hit(srv, st, path, file) then
      var entry := st.cache[path];
      (st, if True(entry.error) then Fails(CompileFailure(path, entry.error)) else Runs(entry.handler))
    else
      (if file.Some? then Refreshed(srv, st, path, file.value, useCache) else st, Recompiled(srv, path, file))
  }

  class Embed {
    const srv: Server
    var cache: map<Path, Entry>
    var packages: map<string, Handler>

    constructor (srv: Server)
      ensures this.srv == srv && Now() == State(map[], map[])
    {
      this.srv := srv;
      cache, packages := map[], map[];
    }

    function Now(): State
      reads this
    {
      State(cache, packages)
    }

    /** Remembers the age of the file, if the cache is in use. */
    method Date(path: Path, age: int, useCache: bool)
      modifies this`cache
      ensures cache == old(cache)[path := Dated(EntryOf(old(Now()), path), age, useCache)]
    {
      if path !in cache {
        cache := cache[path := Entry(None, "", None)];
      }
      if useCache {
        cache := cache[path := cache[path].(mtime := Some(age))];
      }
    }

    /** Compiles into the plugin's own, emptied package; the slots of the entry
        are written one by one, in the order of the code. */
    method Compile(path: Path, name: string, content: string) returns (reply: Reply)
      requires path in cache
      modifies this
      ensures cache == old(cache)[path := Compiled(srv, old(cache)[path], path, content)]
      ensures packages == (if srv.compile(path, content).Good?
                           then Emptied(old(packages), name)[name := Handler(path, content)]
                           else Emptied(old(packages), name))
      ensures reply == match srv.compile(path, content)
        case Good => Runs(Some(Handler(path, content)))
        case Bad(error, output) => Fails(CompileFailure(path, Cleaned(error) + output))
    {
      hide CompileFailure, Cleaned;
      packages := Emptied(packages, name);
      match srv.compile(path, content) {
        case Bad(error, output) =>
          var err := Cleaned(error);
          cache := cache[path := cache[path].(error := err)];
          reply := Fails(CompileFailure(path, err + output));
        case Good =>
          packages := packages[name := Handler(path, content)];
          cache := cache[path := cache[path].(error := "")];
          cache := cache[path := cache[path].(handler := Some(packages[name]))];
          reply := Runs(cache[path].handler);
      }
    }

    /** The part of eval_file behind the cache lookup. */
    method Recompile(path: Path, f: File, useCache: bool) returns (reply: Reply)
      modifies this
      ensures Now() == Refreshed(srv, old(Now()), path, f, useCache)
      ensures reply == Recompiled(srv, path, Some(f))
    {
      hide PackageOf, CompileFailure;
      var name := ValidPackageName(path);
      Date(path, srv.start - f.mtime, useCache);
      reply := Compile(path, name, f.content);
      ghost var goal := Refreshed(srv, old(Now()), path, f, useCache);
      assert cache == goal.cache;
    }

    method EvalFile(path: Path, file: Option<File>, useCache: bool) returns (reply: Reply)
      modifies this
      ensures (Now(), reply) == Eval(srv, old(Now()), path, file, useCache)
    {
      hide PackageOf, CompileFailure, OpenFailure, Refreshed;
      var mtime := Age(srv, file);
      if path in cache && cache[path].mtime.Some? && cache[path].mtime.value != 0 {
        if cache[path].mtime.value <= Number(mtime) {
          if True(cache[path].error) {
            return Fails(CompileFailure(path, cache[path].error));
          }
          return Runs(cache[path].handler);
        }
      }
      if file.None? {
        return Fails(OpenFailure(srv, path));
      }
      reply := Recompile(path, file.value, useCache);
    }
  }

  // ---- runs of edits and calls ----

  /** The last version of a file on disk, and whether it is still there. */
  datatype Disk = Disk(present: bool, file: File)

  datatype Event =
    | Write(path: Path, file: File)
    | Delete(path: Path)
    | Call(path: Path, useCache: bool)

  datatype World = World(st: State, disk: map<Path, Disk>)

  function OnDisk(w: World, path: Path): Option<File> {
    if path in w.disk && w.disk[path].present then Some(w.disk[path].file) else None
  }

  /** Modification times never go back, and every change of the contents moves them forward. */
  predicate Disciplined(w: World, e: Event) {
    e.Write? && e.path in w.disk ==>
      var before := w.disk[e.path].file;
      before.mtime < e.file.mtime || before == e.file
  }

  function Apply(srv: Server, w: World, e: Event): World {
    match e
    case Write(path, file) => w.(disk := w.disk[path := Disk(true, file)])
    case Delete(path) => if path in w.disk then w.(disk := w.disk[path := w.disk[path].(present := false)]) else w
    case Call(path, useCache) => w.(st := Eval(srv, w.st, path, OnDisk(w, path), useCache).0)
  }

  function After(srv: Server, run: seq<Event>): World {
    if run == [] then World(State(map[], map[]), map[])
    else Apply(srv, After(srv, run[..|run| - 1]), run[|run| - 1])
  }

  predicate IsRun(srv: Server, run: seq<Event>) {
    run == [] ||
    (IsRun(srv, run[..|run| - 1]) && Disciplined(After(srv, run[..|run| - 1]), run[|run| - 1]))
  }

  /** Compiling fails, but what is left of the error is false in Perl. */
  predicate Silent(srv: Server, path: Path, content: string) {
    srv.compile(path, content).Bad? && !True(Cleaned(srv.compile(path, content).error))
  }

  // ---- the invariant ----

  /** The entry is what compiling these contents leaves behind. */
  predicate Reflects(srv: Server, entry: Entry, path: Path, content: string) {
    match srv.compile(path, content)
    case Good => entry.error == "" && entry.handler == Some(Handler(path, content))
    case Bad(error, _) => entry.error == Cleaned(error)
  }

  predicate EntryOk(srv: Server, w: World, path: Path)
    requires path in w.st.cache
  {
    && path in w.disk
    && (w.st.cache[path].mtime.Some? ==>
          var age := srv.start - w.disk[path].file.mtime;
          && w.st.cache[path].mtime.value >= age
          && (w.st.cache[path].mtime.value == age ==> Reflects(srv, w.st.cache[path], path, w.disk[path].file.content)))
  }

  ghost predicate Inv(srv: Server, w: World) {
    forall path :: path in w.st.cache ==> EntryOk(srv, w, path)
  }

  lemma StepKeeps(srv: Server, w: World, e: Event)
    requires Inv(srv, w) && Disciplined(w, e)
    ensures Inv(srv, Apply(srv, w, e))
  {
    var w' := Apply(srv, w, e);
    forall path | path in w'.st.cache ensures EntryOk(srv, w', path) {
      if path != e.path || e.Delete? {
        assert EntryOk(srv, w, path);
      } else if e.Write? {
        assert EntryOk(srv, w, path);
      } else if path in w.st.cache {
        assert EntryOk(srv, w, path);
      }
    }
  }

  lemma {:induction false} RunKeeps(srv: Server, run: seq<Event>)
    requires IsRun(srv, run)
    ensures Inv(srv, After(srv, run))
  {
    if run != [] {
      RunKeeps(srv, run[..|run| - 1]);
      StepKeeps(srv, After(srv, run[..|run| - 1]), run[|run| - 1]);
    }
  }

  // ---- results ----

  /** The same handler, or the same failure up to captured output at its end. */
  predicate Agrees(reply: Reply, anew: Reply) {
    reply == anew || (reply.Fails? && anew.Fails? && reply.message <= anew.message)
  }

  lemma FailuresDiffer(srv: Server, path: Path, text: string)
    ensures !(CompileFailure(path, text) <= OpenFailure(srv, path))
  {
    assert CompileFailure(path, text)[17] == 'c';
    assert OpenFailure(srv, path)[17] == 'o';
  }

  /** After any run, a call answers what compiling afresh would answer, exactly
      unless it hits an entry from after the server start while the file is gone
      or fails to compile silently. */
  lemma CacheRefinesRecompiling(srv: Server, run: seq<Event>, path: Path, useCache: bool)
    requires IsRun(srv, run)
    ensures var w := After(srv, run);
      var file := OnDisk(w, path);
      Agrees(Eval(srv, w.st, path, file, useCache).1, Recompiled(srv, path, file))
      <==> !(Hit(srv, w.st, path, file) && (file.None? || Silent(srv, path, file.value.content)))
  {
    hide Cleaned;
    RunKeeps(srv, run);
    var w := After(srv, run);
    var file := OnDisk(w, path);
    if Hit(srv, w.st, path, file) {
      var entry := w.st.cache[path];
      assert EntryOk(srv, w, path);
      if file.None? {
        FailuresDiffer(srv, path, entry.error);
      } else {
        match srv.compile(path, file.value.content)
        case Good =>
        case Bad(error, output) =>
          assert CompileFailure(path, Cleaned(error) + output) == CompileFailure(path, Cleaned(error)) + output;
      }
    }
  }

  /** Errors that end in a newline, as die makes them, are never silent: then only
      a deleted plugin is answered differently. */
  lemma FinishedErrorsAreNotSilent(srv: Server, run: seq<Event>, path: Path, useCache: bool)
    requires IsRun(srv, run)
    requires forall content :: srv.compile(path, content).Bad? ==> Finished(srv.compile(path, content).error)
    ensures var w := After(srv, run);
      var file := OnDisk(w, path);
      Agrees(Eval(srv, w.st, path, file, useCache).1, Recompiled(srv, path, file))
      <==> !(Hit(srv, w.st, path, None) && file.None?)
  {
    hide Cleaned, Eval, Recompiled, Hit, Agrees;
    CacheRefinesRecompiling(srv, run, path, useCache);
    var file := OnDisk(After(srv, run), path);
    if file.Some? && srv.compile(path, file.value.content).Bad? {
      FinishedStaysTrue(srv.compile(path, file.value.content).error);
    }
  }

  // ---- runs without discipline ----

  /** The contents that were compiled last, for each path. */
  function LastCompiled(srv: Server, run: seq<Event>): map<Path, string> {
    if run == [] then map[]
    else
      var before, e := run[..|run| - 1], run[|run| - 1];
      var w := After(srv, before);
      if e.Call? && !Hit(srv, w.st, e.path, OnDisk(w, e.path)) && OnDisk(w, e.path).Some?
      then LastCompiled(srv, before)[e.path := OnDisk(w, e.path).value.content]
      else LastCompiled(srv, before)
  }

  /** The contents that were compiled with success last, for each path. */
  function LastGood(srv: Server, run: seq<Event>): map<Path, string> {
    if run == [] then map[]
    else
      var before, e := run[..|run| - 1], run[|run| - 1];
      var w := After(srv, before);
      if && e.Call? && !Hit(srv, w.st, e.path, OnDisk(w, e.path)) && OnDisk(w, e.path).Some?
         && srv.compile(e.path, OnDisk(w, e.path).value.content).Good?
      then LastGood(srv, before)[e.path := OnDisk(w, e.path).value.content]
      else LastGood(srv, before)
  }

  function HandlerOf(good: map<Path, string>, path: Path): Option<Handler> {
    if path in good then Some(Handler(path, good[path])) else None
  }

  ghost predicate Filled(srv: Server, st: State, last: map<Path, string>, good: map<Path, string>) {
    && st.cache.Keys == last.Keys && good.Keys <= last.Keys
    && forall path :: path in st.cache ==>
         Reflects(srv, st.cache[path], path, last[path]) && st.cache[path].handler == HandlerOf(good, path)
  }

  /** Whatever happens to the files, an entry is what its last compilation left. */
  lemma {:induction false} RunFills(srv: Server, run: seq<Event>)
    ensures Filled(srv, After(srv, run).st, LastCompiled(srv, run), LastGood(srv, run))
  {
    hide Cleaned, Hit, PackageOf;
    if run != [] {
      RunFills(srv, run[..|run| - 1]);
    }
  }

  lemma SamePrefix(path: Path, a: string, b: string)
    ensures CompileFailure(path, a) <= CompileFailure(path, b) <==> a <= b
  {
    var front := "**ePN: failed to compile " + path + ": ";
    if CompileFailure(path, a) <= CompileFailure(path, b) {
      assert (front + a)[|front|..] == a && (front + b)[|front|..] == b;
      assert a == (front + b)[..|front + a|][|front|..];
    }
  }

  /** How a hit answers when nothing is known about the modification times: a
      plugin that compiled is answered right exactly if its contents are those
      that were compiled; one that failed, exactly if it still fails with an
      error, or output, that begins the same; and one that failed silently,
      exactly if its contents are those that compiled before that. */
  lemma StaleIff(srv: Server, run: seq<Event>, path: Path, useCache: bool)
    requires var w := After(srv, run); OnDisk(w, path).Some? && Hit(srv, w.st, path, OnDisk(w, path))
    ensures path in LastCompiled(srv, run)
    ensures var w := After(srv, run);
      var content, last := OnDisk(w, path).value.content, LastCompiled(srv, run)[path];
      var now := srv.compile(path, content);
      && (srv.compile(path, last).Good? ==>
            (Agrees(Eval(srv, w.st, path, OnDisk(w, path), useCache).1, Recompiled(srv, path, OnDisk(w, path)))
             <==> content == last))
      && (srv.compile(path, last).Bad? && !Silent(srv, path, last) ==>
            (Agrees(Eval(srv, w.st, path, OnDisk(w, path), useCache).1, Recompiled(srv, path, OnDisk(w, path)))
             <==> now.Bad? && Cleaned(srv.compile(path, last).error) <= Cleaned(now.error) + now.output))
      && (Silent(srv, path, last) ==>
            (Agrees(Eval(srv, w.st, path, OnDisk(w, path), useCache).1, Recompiled(srv, path, OnDisk(w, path)))
             <==> now.Good? && path in LastGood(srv, run) && LastGood(srv, run)[path] == content))
  {
    hide Cleaned, PackageOf, CompileFailure;
    RunFills(srv, run);
    var w := After(srv, run);
    var now, last := srv.compile(path, OnDisk(w, path).value.content), LastCompiled(srv, run)[path];
    assert Reflects(srv, w.st.cache[path], path, last);
    if now.Bad? && srv.compile(path, last).Bad? {
      SamePrefix(path, Cleaned(srv.compile(path, last).error), Cleaned(now.error) + now.output);
    }
  }

  // ---- using the cache or not ----

  predicate NeverCached(run: seq<Event>) {
    forall i :: 0 <= i < |run| && run[i].Call? ==> !run[i].useCache
  }

  predicate Undated(st: State) {
    forall path :: path in st.cache ==> st.cache[path].mtime.None?
  }

  lemma {:induction false} RunLeavesUndated(srv: Server, run: seq<Event>)
    requires NeverCached(run)
    ensures Undated(After(srv, run).st)
  {
    if run != [] {
      hide Cleaned, PackageOf;
      var before := run[..|run| - 1];
      assert forall i :: 0 <= i < |before| ==> before[i] == run[i];
      RunLeavesUndated(srv, before);
    }
  }

  /** With the cache off in every call, each call compiles anew, whatever happens to the files. */
  lemma UncachedRecompiles(srv: Server, run: seq<Event>, path: Path)
    requires NeverCached(run)
    ensures var w := After(srv, run);
      Eval(srv, w.st, path, OnDisk(w, path), false).1 == Recompiled(srv, path, OnDisk(w, path))
  {
    hide Cleaned, PackageOf;
    RunLeavesUndated(srv, run);
  }

  /** With the cache on, a call is followed by a hit for the same file, exactly unless the
      file is as old as the server, because an age of zero is false in Perl, and was no hit before. */
  lemma CachedHits(srv: Server, st: State, path: Path, f: File)
    ensures Hit(srv, Eval(srv, st, path, Some(f), true).0, path, Some(f)) <==>
      f.mtime != srv.start || Hit(srv, st, path, Some(f))
  {
    hide Cleaned, PackageOf;
  }

  // ---- packages ----

  /** The package of `path` holds what its last successful compilation put there. */
  predicate Intact(srv: Server, packages: map<string, Handler>, path: Path, content: string) {
    srv.compile(path, content).Good? ==>
      PackageOf(path) in packages && packages[PackageOf(path)] == Handler(path, content)
  }

  /** The package of `path` is that of `other`, or `other`'s lies inside it. */
  predicate Covers(path: Path, other: Path) {
    Canonical(false, path) == Canonical(false, other) || Canonical(false, path) + "/" <= Canonical(false, other)
  }

  /** Compiling one absolute path leaves the package of another as it was, exactly
      unless they share one or the other's lies inside. For paths of bytes that is:
      exactly unless the other path lies below. */
  lemma RefreshWipesIff(srv: Server, st: State, path: Path, f: File, useCache: bool, other: Path, content: string)
    requires Absolute(path) && Absolute(other) && other != path
    requires srv.compile(other, content).Good? && Intact(srv, st.packages, other, content)
    ensures Intact(srv, Refreshed(srv, st, path, f, useCache).packages, other, content) <==> !Covers(path, other)
    ensures Bytes(path) && Bytes(other) ==> (Covers(path, other) <==> path + "/" <= other)
  {
    hide PackageOf, Cleaned, Canonical;
    NestedIff(path, other);
    CollisionIff(path, other);
    if Bytes(path) && Bytes(other) && PackageOf(path) == PackageOf(other) {
      AbsoluteBytesStayApart(path, other);
    }
  }

  /** Only absolute paths are called. */
  predicate OnlyAbsolute(run: seq<Event>) {
    forall i :: 0 <= i < |run| && run[i].Call? ==> Absolute(run[i].path)
  }

  /** No called path covers another one. */
  predicate NoneCovered(run: seq<Event>) {
    forall i, k :: 0 <= i < |run| && 0 <= k < |run| && run[i].Call? && run[k].Call? && run[i].path != run[k].path ==>
      !Covers(run[i].path, run[k].path)
  }

  ghost predicate AllIntact(srv: Server, st: State, last: map<Path, string>) {
    forall path :: path in last ==> Intact(srv, st.packages, path, last[path])
  }

  predicate CalledIn(run: seq<Event>, path: Path) {
    exists i :: 0 <= i < |run| && run[i].Call? && run[i].path == path
  }

  lemma {:induction false} CompiledWereCalled(srv: Server, run: seq<Event>, path: Path)
    requires path in LastCompiled(srv, run)
    ensures CalledIn(run, path)
  {
    hide Hit;
    var before, e := run[..|run| - 1], run[|run| - 1];
    if e.Call? && e.path == path {
      assert run[|run| - 1].path == path;
    } else {
      CompiledWereCalled(srv, before, path);
      var i :| 0 <= i < |before| && before[i].Call? && before[i].path == path;
      assert run[i] == before[i];
    }
  }

  lemma RefreshKeepsPackages(srv: Server, st: State, last: map<Path, string>, path: Path, f: File, useCache: bool)
    requires AllIntact(srv, st, last) && Absolute(path)
    requires forall other :: other in last ==> Absolute(other) && (other != path ==> !Covers(path, other))
    ensures AllIntact(srv, Refreshed(srv, st, path, f, useCache), last[path := f.content])
  {
    hide PackageOf, Absolute, Cleaned, Covers;
    var st' := Refreshed(srv, st, path, f, useCache);
    var last' := last[path := f.content];
    forall other | other in last' ensures Intact(srv, st'.packages, other, last'[other]) {
      if other != path && srv.compile(other, last[other]).Good? {
        assert Intact(srv, st.packages, other, last[other]);
        RefreshWipesIff(srv, st, path, f, useCache, other, last[other]);
      }
    }
  }

  /** While only absolute paths are called, none covering another, the package of
      every plugin whose last compilation succeeded holds that plugin's own handler. */
  lemma {:induction false} PluginsStayApart(srv: Server, run: seq<Event>)
    requires OnlyAbsolute(run) && NoneCovered(run)
    ensures AllIntact(srv, After(srv, run).st, LastCompiled(srv, run))
  {
    hide PackageOf, Absolute, Cleaned, Hit, Intact, Refreshed, Covers;
    if run != [] {
      var before, e := run[..|run| - 1], run[|run| - 1];
      assert forall i :: 0 <= i < |before| ==> before[i] == run[i];
      PluginsStayApart(srv, before);
      var w, last := After(srv, before), LastCompiled(srv, before);
      if e.Call? && !Hit(srv, w.st, e.path, OnDisk(w, e.path)) && OnDisk(w, e.path).Some? {
        forall other | other in last ensures Absolute(other) && (other != e.path ==> !Covers(e.path, other)) {
          CompiledWereCalled(srv, before, other);
          var i :| 0 <= i < |before| && before[i].Call? && before[i].path == other;
          assert run[i].path == other && run[|run| - 1].path == e.path;
        }
        RefreshKeepsPackages(srv, w.st, last, e.path, OnDisk(w, e.path).value, e.useCache);
      }
    }
  }

  // ---- why the conditions are there ----

  lemma OneMore(srv: Server, run: seq<Event>, e: Event)
    ensures After(srv, run + [e]) == Apply(srv, After(srv, run), e)
    ensures IsRun(srv, run + [e]) <==> IsRun(srv, run) && Disciplined(After(srv, run), e)
  {
    assert (run + [e])[..|run|] == run;
  }

  /** A server on which the plugin has been written at time 5 and called once. */
  lemma CalledOnce(srv: Server) returns (run: seq<Event>)
    requires srv.start == 0
    ensures IsRun(srv, run)
    ensures After(srv, run).disk == map["/p" := Disk(true, File(5, "x"))]
    ensures After(srv, run).st == Refreshed(srv, State(map[], map[]), "/p", File(5, "x"), true)
  {
    OneMore(srv, [], Write("/p", File(5, "x")));
    run := [] + [Write("/p", File(5, "x"))];
    OneMore(srv, run, Call("/p", true));
    run := run + [Call("/p", true)];
  }

  function AllGood(): Server {
    Server((path, content) => Good, 0, "gone")
  }

  /** A deleted plugin still runs from the cache if it was newer than the server. */
  lemma DeletedPluginRuns() returns (run: seq<Event>)
    ensures IsRun(AllGood(), run)
    ensures var w := After(AllGood(), run);
      && Eval(AllGood(), w.st, "/p", OnDisk(w, "/p"), true).1 == Runs(Some(Handler("/p", "x")))
      && Recompiled(AllGood(), "/p", OnDisk(w, "/p")).Fails?
  {
    var before := CalledOnce(AllGood());
    OneMore(AllGood(), before, Delete("/p"));
    run := before + [Delete("/p")];
  }

  /** Contents changed without a newer time stamp go unnoticed. */
  lemma UntouchedChangeIsMissed() returns (run: seq<Event>)
    ensures var w := After(AllGood(), run);
      && Eval(AllGood(), w.st, "/p", OnDisk(w, "/p"), true).1 == Runs(Some(Handler("/p", "x")))
      && Recompiled(AllGood(), "/p", OnDisk(w, "/p")) == Runs(Some(Handler("/p", "y")))
  {
    var before := CalledOnce(AllGood());
    OneMore(AllGood(), before, Write("/p", File(5, "y")));
    run := before + [Write("/p", File(5, "y"))];
  }

  /** Every plugin dies with an object whose text is an exit message and nothing
      else; an error that is a string would have a newline at its end. */
  function BareExit(): Server {
    Server((path, content) => Bad("ExitTrap: line 1.", ""), 0, "gone")
  }

  /** A failure whose error text ends up false in Perl is forgotten by the second call. */
  lemma SilentFailureIsForgotten() returns (run: seq<Event>)
    ensures IsRun(BareExit(), run)
    ensures var w := After(BareExit(), run);
      && Eval(BareExit(), w.st, "/p", OnDisk(w, "/p"), true).1 == Runs(None)
      && Recompiled(BareExit(), "/p", OnDisk(w, "/p")).Fails?
  {
    BareMessageVanishes();
    run := CalledOnce(BareExit());
  }
}
