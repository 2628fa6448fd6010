/**
 Workspace bookkeeping (src/config.rs:2050-2079, 2158-2254, 2339-2495): every operation first brings the
 list into order, then edits it. `~` stands for the home directory; the clock is handed in.
*/
module Workspaces {
  import opened RustText

  datatype Permission = ReadOnly | ReadWrite

  datatype WorkspacePath = WorkspacePath(path: string, permission: Permission, description: Option<string>)

  datatype Workspace = Workspace(id: string, name: string, paths: seq<WorkspacePath>, path: string,
                                 description: Option<string>, permission: Permission,
                                 createdAt: string, lastUsed: Option<string>)

  /** The part of the agent configuration the operations work on. */
  datatype State = State(workspace: string, workspaces: seq<Workspace>, active: Option<string>)

  const DEFAULT: string := "default"
  const DEFAULT_PATH: string := "~/.osagent/workspace"

  /** The home directory, if there is one; a home path does not itself start with `~` or a space. */
  type Home = h: Option<string> | h.Some? ==> |h.value| > 0 && h.value[0] != '~' && !IsWhite(h.value[0]) witness None

  /** `shellexpand::tilde`. */
  function Tilde(home: Home, s: string): string {
    if |s| > 0 && s[0] == '~' && (|s| == 1 || s[1] == '/') && home.Some? then home.value + s[1..] else s
  }

  lemma TildeTwice(home: Home, s: string)
    ensures Tilde(home, Tilde(home, s)) == Tilde(home, s)
  {
  }

  lemma TildeBlank(home: Home, s: string)
    ensures Blank(Tilde(home, s)) <==> Blank(s)
  {
    if Tilde(home, s) != s {
      assert Tilde(home, s)[0] == home.value[0];
    }
  }

  // ---- one workspace -------------------------------------------------------------------

  /** `filter_map`: expanded, and dropped when blank. */
  function ExpandPaths(home: Home, paths: seq<WorkspacePath>): (r: seq<WorkspacePath>)
    ensures |r| <= |paths|
  {
    if |paths| == 0 then []
    else
      var rest := ExpandPaths(home, paths[1..]);
      var p := paths[0].(path := Tilde(home, paths[0].path));
      if Blank(p.path) then rest else [p] + rest
  }

  /** `resolved_path`. */
  function Resolved(w: Workspace): string { FirstPath(w.paths, w.path) }

  function FirstPath(paths: seq<WorkspacePath>, otherwise: string): string {
    if |paths| == 0 then otherwise
    else if !Blank(paths[0].path) then paths[0].path
    else FirstPath(paths[1..], otherwise)
  }

  function Primary(home: Home, w: Workspace): WorkspacePath {
    WorkspacePath(Tilde(home, w.path), w.permission, Some("Primary workspace directory"))
  }

  function Resolve(w: Workspace): Workspace { w.(path := Resolved(w)) }

  /** The body of `migrate_workspace_paths`. */
  function MigrateOne(home: Home, w: Workspace): Workspace {
    var paths := if |w.paths| == 0 && w.path != "" then [Primary(home, w)] else w.paths;
    Resolve(w.(paths := ExpandPaths(home, paths)))
  }

  /** The paths a migrated workspace ends up with, before any fallback. */
  function OwnPaths(home: Home, w: Workspace): seq<WorkspacePath> {
    var paths := ExpandPaths(home, w.paths);
    if |paths| == 0 && !Blank(w.path) then [Primary(home, w)] else paths
  }

  function Fallback(path: string): WorkspacePath {
    WorkspacePath(path, ReadWrite, Some("Default working directory"))
  }

  /** The body of the cleaning loop, on a migrated workspace. */
  function CleanOne(home: Home, w: Workspace, fallback: string, now: string): Workspace {
    var own := OwnPaths(home, w);
    var paths := if w.id == DEFAULT && |own| == 0 then [Fallback(fallback)] else own;
    var v := Resolve(w.(paths := paths));
    v.(name := if Blank(v.name) then v.id else v.name,
       createdAt := if Blank(v.createdAt) then now else v.createdAt)
  }

  // ---- the list ---------------------------------------------------------------------------

  function MigrateAll(home: Home, ws: seq<Workspace>): (r: seq<Workspace>)
    ensures |r| == |ws|
  {
    seq(|ws|, i requires 0 <= i < |ws| => MigrateOne(home, ws[i]))
  }

  predicate HasId(ws: seq<Workspace>, id: string) {
    exists i :: 0 <= i < |ws| && ws[i].id == id
  }

  /** Blank ids and repeats go, the rest is cleaned. */
  function KeepFirst(ws: seq<Workspace>, clean: Workspace -> Workspace): (r: seq<Workspace>) {
    if |ws| == 0 then []
    else
      var init, w := KeepFirst(ws[..|ws| - 1], clean), ws[|ws| - 1];
      if Blank(w.id) || HasId(init, w.id) then init else init + [clean(w)]
  }

  lemma KeepFirstSnoc(ws: seq<Workspace>, w: Workspace, clean: Workspace -> Workspace)
    ensures KeepFirst(ws + [w], clean)
            == if Blank(w.id) || HasId(KeepFirst(ws, clean), w.id) then KeepFirst(ws, clean)
               else KeepFirst(ws, clean) + [clean(w)]
  {
    assert (ws + [w])[..|ws|] == ws;
  }

  function Cleaner(home: Home, fallback: string, now: string): Workspace -> Workspace {
    (w: Workspace) => CleanOne(home, w, fallback, now)
  }

  /** The cleaning loop. */
  function CleanAll(home: Home, ws: seq<Workspace>, fallback: string, now: string): seq<Workspace> {
    KeepFirst(ws, Cleaner(home, fallback, now))
  }

  ghost predicate KeepsIds(clean: Workspace -> Workspace) {
    forall w :: clean(w).id == w.id
  }

  function DefaultWorkspace(fallback: string, now: string): Workspace {
    Workspace(DEFAULT, "Default Workspace", [Fallback(fallback)], fallback, Some("Default working directory"),
              ReadWrite, now, Some(now))
  }

  function WithDefault(ws: seq<Workspace>, fallback: string, now: string): seq<Workspace> {
    if HasId(ws, DEFAULT) then ws else ws + [DefaultWorkspace(fallback, now)]
  }

  /** First entry with the id. */
  function Find(ws: seq<Workspace>, id: string): (i: nat)
    requires HasId(ws, id)
    ensures i < |ws| && ws[i].id == id && forall j :: 0 <= j < i ==> ws[j].id != id
  {
    if ws[0].id == id then 0
    else
      assert HasId(ws[1..], id) by {
        var i :| 0 <= i < |ws| && ws[i].id == id;
        assert ws[1..][i - 1].id == id;
      }
      1 + Find(ws[1..], id)
  }

  function FallbackPath(home: Home, s: State): string {
    if Blank(s.workspace) then DEFAULT_PATH else Tilde(home, s.workspace)
  }

  function Ordered(home: Home, s: State, now: string): seq<Workspace> {
    var fallback := FallbackPath(home, s);
    WithDefault(CleanAll(home, MigrateAll(home, s.workspaces), fallback, now), fallback, now)
  }

  function ActiveId(ws: seq<Workspace>, active: Option<string>): string {
    if active.Some? && HasId(ws, active.value) then active.value else DEFAULT
  }

  lemma DefaultPresent(ws: seq<Workspace>, fallback: string, now: string)
    ensures HasId(WithDefault(ws, fallback, now), DEFAULT)
  {
    if !HasId(ws, DEFAULT) {
      var all := WithDefault(ws, fallback, now);
      assert all[|ws|].id == DEFAULT;
    }
  }

  /** `ensure_workspace_defaults`. */
  function Ensure(home: Home, s: State, now: string): State {
    var ws := Ordered(home, s, now);
    var fallback := FallbackPath(home, s);
    DefaultPresent(CleanAll(home, MigrateAll(home, s.workspaces), fallback, now), fallback, now);
    var id := ActiveId(ws, s.active);
    var path := Resolved(ws[Find(ws, id)]);
    State(if Blank(path) then FallbackPath(home, s) else path, ws, Some(id))
  }

  // ---- what every operation keeps -------------------------------------------------------------

  ghost predicate DistinctIds(ws: seq<Workspace>) {
    forall i, j :: 0 <= i < j < |ws| ==> ws[i].id != ws[j].id
  }

  /** Ids are distinct, the default workspace is there, and the active one exists. */
  ghost predicate Consistent(s: State) {
    && DistinctIds(s.workspaces)
    && HasId(s.workspaces, DEFAULT)
    && s.active.Some? && HasId(s.workspaces, s.active.value)
  }

  lemma {:induction false} KeepFirstDistinct(ws: seq<Workspace>, clean: Workspace -> Workspace)
    requires KeepsIds(clean)
    ensures DistinctIds(KeepFirst(ws, clean))
  {
    if |ws| > 0 {
      KeepFirstDistinct(ws[..|ws| - 1], clean);
    }
  }

  lemma EnsureConsistent(home: Home, s: State, now: string)
    ensures Consistent(Ensure(home, s, now))
  {
    var fallback := FallbackPath(home, s);
    var cleaned := CleanAll(home, MigrateAll(home, s.workspaces), fallback, now);
    KeepFirstDistinct(MigrateAll(home, s.workspaces), Cleaner(home, fallback, now));
    DefaultPresent(cleaned, fallback, now);
  }

  // ---- the operations ------------------------------------------------------------------------

  datatype Operation =
    | Add(w: Workspace)
    | Update(w: Workspace)
    | AddPath(id: string, entry: WorkspacePath)
    | RemovePath(id: string, index: nat)
    | UpdatePath(id: string, index: nat, entry: WorkspacePath)
    | Remove(id: string)

  /** The paths of an incoming workspace expanded, and its path resolved. */
  function Accepted(home: Home, w: Workspace, createdAt: string): Workspace {
    var v := Resolve(w.(paths := ExpandPaths(home, w.paths)));
    v.(createdAt := if Blank(v.createdAt) then createdAt else v.createdAt)
  }

  /** `paths.retain(...)` */
  function Retain(paths: seq<WorkspacePath>): seq<WorkspacePath> {
    if |paths| == 0 then []
    else (if Blank(paths[0].path) then [] else [paths[0]]) + Retain(paths[1..])
  }

  function Expanded(home: Home, p: WorkspacePath): WorkspacePath { p.(path := Tilde(home, p.path)) }

  /** The first workspace with the id given new paths, its path following them. */
  function SetPaths(s: State, id: string, paths: seq<WorkspacePath>): State
    requires HasId(s.workspaces, id)
  {
    var i := Find(s.workspaces, id);
    s.(workspaces := s.workspaces[i := Resolve(s.workspaces[i].(paths := paths))])
  }

  function PathsOf(s: State, id: string): seq<WorkspacePath>
    requires HasId(s.workspaces, id)
  {
    s.workspaces[Find(s.workspaces, id)].paths
  }

  function Without(ws: seq<Workspace>, id: string): seq<Workspace> {
    if |ws| == 0 then []
    else Without(ws[..|ws| - 1], id) + if ws[|ws| - 1].id == id then [] else [ws[|ws| - 1]]
  }

  datatype Refusal = AlreadyExists | NotFound | LastPath | OutOfBounds | DefaultProtected

  datatype Outcome = Done(state: State) | Refused(why: Refusal)

  /** What an operation does to a list in order. */
  function Edit(home: Home, s: State, op: Operation, now: string): Outcome {
    var ws := s.workspaces;
    match op
    case Add(w) =>
      if HasId(ws, w.id) then Refused(AlreadyExists) else Done(s.(workspaces := ws + [Accepted(home, w, now)]))
    case Update(w) =>
      if !HasId(ws, w.id) then Refused(NotFound)
      else
        var i := Find(ws, w.id);
        Done(s.(workspaces := ws[i := Accepted(home, w, ws[i].createdAt)]))
    case AddPath(id, entry) =>
      if !HasId(ws, id) then Refused(NotFound)
      else Done(SetPaths(s, id, Retain(PathsOf(s, id) + [Expanded(home, entry)])))
    case RemovePath(id, index) =>
      if !HasId(ws, id) then Refused(NotFound)
      else
        var paths := PathsOf(s, id);
        if |paths| <= 1 then Refused(LastPath)
        else if index >= |paths| then Refused(OutOfBounds)
        else Done(SetPaths(s, id, paths[..index] + paths[index + 1..]))
    case UpdatePath(id, index, entry) =>
      if !HasId(ws, id) then Refused(NotFound)
      else
        var paths := PathsOf(s, id);
        if index >= |paths| then Refused(OutOfBounds)
        else Done(SetPaths(s, id, Retain(paths[index := Expanded(home, entry)])))
    case Remove(id) =>
      if id == DEFAULT then Refused(DefaultProtected)
      else if !HasId(ws, id) then Refused(NotFound)
      else Done(s.(workspaces := Without(ws, id), active := if s.active == Some(id) then Some(DEFAULT) else s.active))
  }

  /** The state after an operation, refused or not. */
  function Apply(home: Home, s: State, op: Operation, now: string): State {
    var e := Ensure(home, s, now);
    var edited := Edit(home, e, op, now);
    if edited.Done? then edited.state else e
  }

  /** An operation with what the clock reads when it runs. */
  datatype Call = Call(op: Operation, now: string)

  function ApplyAll(home: Home, s: State, calls: seq<Call>): State {
    if |calls| == 0 then s
    else Apply(home, ApplyAll(home, s, calls[..|calls| - 1]), calls[|calls| - 1].op, calls[|calls| - 1].now)
  }

  lemma {:induction false} WithoutKeeps(ws: seq<Workspace>, id: string)
    requires DistinctIds(ws)
    ensures DistinctIds(Without(ws, id))
    ensures forall other :: HasId(Without(ws, id), other) <==> other != id && HasId(ws, other)
  {
    if |ws| > 0 {
      var init, w := ws[..|ws| - 1], ws[|ws| - 1];
      WithoutKeeps(init, id);
      var rest := Without(init, id);
      assert ws == init + [w];
      assert Without(ws, id) == if w.id == id then rest else rest + [w];
      assert !HasId(init, w.id) by {
        assert forall i :: 0 <= i < |init| ==> init[i] == ws[i];
      }
      forall other ensures HasId(Without(ws, id), other) <==> other != id && HasId(ws, other) {
        HasIdSnoc(init, w, other);
        if w.id != id { HasIdSnoc(rest, w, other); }
      }
    }
  }

  lemma HasIdSnoc(ws: seq<Workspace>, w: Workspace, id: string)
    ensures HasId(ws + [w], id) <==> HasId(ws, id) || w.id == id
  {
    if HasId(ws, id) {
      var i :| 0 <= i < |ws| && ws[i].id == id;
      assert (ws + [w])[i].id == id;
    }
    assert (ws + [w])[|ws|] == w;
  }

  lemma SnocIds(ws: seq<Workspace>, w: Workspace)
    ensures forall id :: HasId(ws + [w], id) <==> HasId(ws, id) || w.id == id
  {
    forall id ensures HasId(ws + [w], id) <==> HasId(ws, id) || w.id == id {
      HasIdSnoc(ws, w, id);
    }
  }

  lemma ReplaceKeepsIds(ws: seq<Workspace>, i: nat, w: Workspace)
    requires i < |ws| && w.id == ws[i].id
    ensures DistinctIds(ws) ==> DistinctIds(ws[i := w])
    ensures forall id :: HasId(ws[i := w], id) <==> HasId(ws, id)
  {
    forall id ensures HasId(ws[i := w], id) <==> HasId(ws, id) {
      if HasId(ws, id) {
        var j :| 0 <= j < |ws| && ws[j].id == id;
        assert ws[i := w][j].id == id;
      }
      if HasId(ws[i := w], id) {
        var j :| 0 <= j < |ws| && ws[i := w][j].id == id;
        assert ws[j].id == id;
      }
    }
  }

  lemma EditConsistent(home: Home, s: State, op: Operation, now: string)
    requires Consistent(s) && Edit(home, s, op, now).Done?
    ensures Consistent(Edit(home, s, op, now).state)
  {
    var ws, t := s.workspaces, Edit(home, s, op, now).state;
    match op
    case Add(w) =>
      HasIdSnoc(ws, Accepted(home, w, now), DEFAULT);
      HasIdSnoc(ws, Accepted(home, w, now), s.active.value);
    case Remove(id) => WithoutKeeps(ws, id);
    case Update(w) => ReplaceKeepsIds(ws, Find(ws, w.id), t.workspaces[Find(ws, w.id)]);
    case AddPath(id, _) => ReplaceKeepsIds(ws, Find(ws, id), t.workspaces[Find(ws, id)]);
    case RemovePath(id, _) => ReplaceKeepsIds(ws, Find(ws, id), t.workspaces[Find(ws, id)]);
    case UpdatePath(id, _, _) => ReplaceKeepsIds(ws, Find(ws, id), t.workspaces[Find(ws, id)]);
  }

  /**
   From any state at all: after any operations at any times, refused ones included, the list is
   consistent.
  */
  lemma OperationsKeepConsistency(home: Home, s: State, calls: seq<Call>)
    requires |calls| > 0
    ensures Consistent(ApplyAll(home, s, calls))
  {
    var before, last := ApplyAll(home, s, calls[..|calls| - 1]), calls[|calls| - 1];
    EnsureConsistent(home, before, last.now);
    var e := Ensure(home, before, last.now);
    if Edit(home, e, last.op, last.now).Done? {
      EditConsistent(home, e, last.op, last.now);
    }
  }

  // ---- putting a list in order twice ---------------------------------------------------------

  /** What the cleaning loop looks for, before any fallback: some directory of the workspace's own. */
  predicate HasDirectory(w: Workspace) {
    !Blank(w.path) || exists k :: 0 <= k < |w.paths| && !Blank(w.paths[k].path)
  }

  /** The default workspace and the active one both name a directory. */
  predicate Grounded(s: State) {
    && HasId(s.workspaces, DEFAULT) && HasDirectory(s.workspaces[Find(s.workspaces, DEFAULT)])
    && (s.active.Some? && !Blank(s.active.value) && HasId(s.workspaces, s.active.value) ==>
          HasDirectory(s.workspaces[Find(s.workspaces, s.active.value)]))
  }

  ghost predicate Settled(home: Home, path: string) { !Blank(path) && Tilde(home, path) == path }

  /** A workspace the cleaning loop leaves as it is. */
  ghost predicate Normal(home: Home, w: Workspace) {
    && !Blank(w.id) && !Blank(w.name) && !Blank(w.createdAt)
    && (forall k :: 0 <= k < |w.paths| ==> Settled(home, w.paths[k].path))
    && if |w.paths| > 0 then w.path == w.paths[0].path else Blank(w.path) && w.id != DEFAULT
  }

  lemma {:induction false} ExpandSettles(home: Home, paths: seq<WorkspacePath>)
    ensures forall k :: 0 <= k < |ExpandPaths(home, paths)| ==> Settled(home, ExpandPaths(home, paths)[k].path)
    ensures |ExpandPaths(home, paths)| > 0 <==> exists k :: 0 <= k < |paths| && !Blank(paths[k].path)
  {
    if |paths| > 0 {
      ExpandSettles(home, paths[1..]);
      TildeBlank(home, paths[0].path);
      TildeTwice(home, paths[0].path);
      if k: nat :| k < |paths| && !Blank(paths[k].path) && k > 0 {
        assert paths[1..][k - 1] == paths[k];
      }
      assert forall k :: 0 < k <= |paths[1..]| ==> paths[k] == paths[1..][k - 1];
    }
  }

  lemma {:induction false} ExpandFixed(home: Home, paths: seq<WorkspacePath>)
    requires forall k :: 0 <= k < |paths| ==> Settled(home, paths[k].path)
    ensures ExpandPaths(home, paths) == paths
  {
    if |paths| > 0 {
      ExpandFixed(home, paths[1..]);
    }
  }

  lemma BlankIsTrimmed()
    ensures Blank("") && !Blank(DEFAULT) && !Blank(DEFAULT_PATH)
  {
    assert DEFAULT[0] == 'd' && DEFAULT_PATH[0] == '~';
  }

  /** The paths a workspace is left with after migration: expanded, and some unless it had no directory. */
  lemma OwnSettled(home: Home, w: Workspace)
    ensures var own := OwnPaths(home, MigrateOne(home, w));
      && (forall k :: 0 <= k < |own| ==> Settled(home, own[k].path))
      && (|own| > 0 <==> HasDirectory(w))
      && (|own| == 0 ==> Blank(MigrateOne(home, w).path))
  {
    var m := MigrateOne(home, w);
    var given := if |w.paths| == 0 && w.path != "" then [Primary(home, w)] else w.paths;
    ExpandSettles(home, given);
    ExpandFixed(home, m.paths);
    TildeBlank(home, w.path);
    TildeBlank(home, m.path);
    TildeTwice(home, m.path);
    BlankIsTrimmed();
  }

  /** One pass over one workspace: in order, unless it is the default one on a fallback still to be expanded. */
  lemma CleanedOne(home: Home, w: Workspace, fallback: string, now: string)
    requires !Blank(w.id) && !Blank(now)
    ensures var v := CleanOne(home, MigrateOne(home, w), fallback, now);
      && v.id == w.id
      && (Settled(home, fallback) || w.id != DEFAULT || HasDirectory(w) ==> Normal(home, v))
      && (HasDirectory(w) ==> |v.paths| > 0)
      && (!HasDirectory(w) ==> if w.id == DEFAULT then v.paths == [Fallback(fallback)] else |v.paths| == 0)
  {
    OwnSettled(home, w);
  }

  lemma NormalFixed(home: Home, w: Workspace, fallback: string, now: string)
    requires Normal(home, w)
    ensures MigrateOne(home, w) == w && CleanOne(home, w, fallback, now) == w
  {
    ExpandFixed(home, w.paths);
    if |w.paths| == 0 {
      TildeBlank(home, w.path);
    }
  }

  lemma {:induction false} KeepFirstFixed(ws: seq<Workspace>, clean: Workspace -> Workspace)
    requires DistinctIds(ws)
    requires forall i :: 0 <= i < |ws| ==> !Blank(ws[i].id) && clean(ws[i]) == ws[i]
    ensures KeepFirst(ws, clean) == ws
  {
    if |ws| > 0 {
      var init, w := ws[..|ws| - 1], ws[|ws| - 1];
      DistinctLast(ws);
      KeepFirstFixed(init, clean);
      KeepFirstSnoc(init, w, clean);
      assert init + [w] == ws;
    }
  }

  lemma DistinctLast(ws: seq<Workspace>)
    requires |ws| > 0 && DistinctIds(ws)
    ensures DistinctIds(ws[..|ws| - 1]) && !HasId(ws[..|ws| - 1], ws[|ws| - 1].id)
  {
  }

  /** Everything Ensure establishes when no raw fallback is used. */
  ghost predicate InOrder(home: Home, s: State) {
    && Consistent(s)
    && (forall i :: 0 <= i < |s.workspaces| ==> Normal(home, s.workspaces[i]))
    && var path := Resolved(s.workspaces[Find(s.workspaces, s.active.value)]);
       if Blank(path) then Settled(home, s.workspace) else s.workspace == path
  }

  lemma InOrderFixed(home: Home, s: State, now: string)
    requires InOrder(home, s)
    ensures Ensure(home, s, now) == s
  {
    var ws := s.workspaces;
    forall i | 0 <= i < |ws|
      ensures MigrateOne(home, ws[i]) == ws[i] && Cleaner(home, FallbackPath(home, s), now)(ws[i]) == ws[i]
    {
      NormalFixed(home, ws[i], FallbackPath(home, s), now);
    }
    assert MigrateAll(home, ws) == ws;
    KeepFirstFixed(ws, Cleaner(home, FallbackPath(home, s), now));
  }

  lemma FindSnoc(ws: seq<Workspace>, w: Workspace, id: string)
    requires HasId(ws + [w], id)
    ensures HasId(ws, id) ==> Find(ws + [w], id) == Find(ws, id)
    ensures !HasId(ws, id) ==> w.id == id && Find(ws + [w], id) == |ws|
  {
    var i := Find(ws + [w], id);
    assert i < |ws| ==> (ws + [w])[i] == ws[i];
    if HasId(ws, id) {
      var j := Find(ws, id);
      assert (ws + [w])[j].id == id;
    }
  }

  /** The cleaned list has exactly the non-blank ids, each with its first entry cleaned. */
  lemma {:induction false} KeptEntry(ws: seq<Workspace>, id: string, clean: Workspace -> Workspace)
    requires KeepsIds(clean)
    ensures HasId(KeepFirst(ws, clean), id) <==> !Blank(id) && HasId(ws, id)
    ensures HasId(KeepFirst(ws, clean), id) ==>
              KeepFirst(ws, clean)[Find(KeepFirst(ws, clean), id)] == clean(ws[Find(ws, id)])
  {
    if |ws| > 0 {
      var init, w := ws[..|ws| - 1], ws[|ws| - 1];
      assert ws == init + [w];
      var r := KeepFirst(init, clean);
      KeptEntry(init, id, clean);
      KeptEntry(init, w.id, clean);
      HasIdSnoc(init, w, id);
      HasIdSnoc(r, clean(w), id);
      if HasId(ws, id) { FindSnoc(init, w, id); }
      if HasId(r + [clean(w)], id) { FindSnoc(r, clean(w), id); }
    }
  }

  /** The same for the cleaning loop. */
  lemma CleanedEntry(home: Home, ws: seq<Workspace>, id: string, fallback: string, now: string)
    ensures var r := CleanAll(home, ws, fallback, now);
      && (HasId(r, id) <==> !Blank(id) && HasId(ws, id))
      && (HasId(r, id) ==> r[Find(r, id)] == CleanOne(home, ws[Find(ws, id)], fallback, now))
  {
    KeptEntry(ws, id, Cleaner(home, fallback, now));
  }

  lemma MigrateKeepsIds(home: Home, ws: seq<Workspace>, id: string)
    ensures HasId(MigrateAll(home, ws), id) <==> HasId(ws, id)
    ensures HasId(ws, id) ==> Find(MigrateAll(home, ws), id) == Find(ws, id)
  {
    var m := MigrateAll(home, ws);
    assert forall i :: 0 <= i < |ws| ==> m[i].id == ws[i].id;
    if HasId(ws, id) {
      var i := Find(ws, id);
      assert m[i].id == id;
      var j := Find(m, id);
      assert ws[j].id == id;
    }
    if HasId(m, id) {
      var j := Find(m, id);
      assert ws[j].id == id;
    }
  }

  /** When the fallback is expanded, or not needed, the result is in order. */
  lemma EnsureInOrder(home: Home, s: State, now: string)
    requires !Blank(now)
    requires !Blank(s.workspace) || home.None? || Grounded(s)
    ensures InOrder(home, Ensure(home, s, now))
  {
    var e, fallback := Ensure(home, s, now), FallbackPath(home, s);
    EnsureConsistent(home, s, now);
    FallbackSettled(home, s);
    forall i | 0 <= i < |e.workspaces| ensures Normal(home, e.workspaces[i]) {
      EntryNormal(home, s, now, i);
    }
    if Grounded(s) {
      ActiveGrounded(home, s, now);
    }
  }

  lemma ActiveGrounded(home: Home, s: State, now: string)
    requires !Blank(now) && Grounded(s)
    ensures var e := Ensure(home, s, now);
      && e.active.Some? && HasId(e.workspaces, e.active.value)
      && !Blank(Resolved(e.workspaces[Find(e.workspaces, e.active.value)]))
  {
    var e := Ensure(home, s, now);
    EnsureConsistent(home, s, now);
    var id := e.active.value;
    EnsuredEntry(home, s, now, id);
    BlankIsTrimmed();
    EnsuredEntry(home, s, now, DEFAULT);
    var i := Find(s.workspaces, id);
    assert HasDirectory(s.workspaces[i]);
    CleanedOne(home, s.workspaces[i], FallbackPath(home, s), now);
    EntryPaths(home, s.workspaces[i], FallbackPath(home, s), now);
  }

  lemma EntryPaths(home: Home, w: Workspace, fallback: string, now: string)
    requires !Blank(w.id) && !Blank(now) && HasDirectory(w)
    ensures !Blank(Resolved(CleanOne(home, MigrateOne(home, w), fallback, now)))
  {
    CleanedOne(home, w, fallback, now);
  }

  lemma FallbackSettled(home: Home, s: State)
    ensures !Blank(FallbackPath(home, s))
    ensures !Blank(s.workspace) || home.None? ==> Settled(home, FallbackPath(home, s))
    ensures Blank(s.workspace) && home.Some? ==> Tilde(home, DEFAULT_PATH) != DEFAULT_PATH
  {
    BlankIsTrimmed();
    TildeBlank(home, s.workspace);
    TildeTwice(home, s.workspace);
    if Blank(s.workspace) && home.Some? {
      assert Tilde(home, DEFAULT_PATH)[0] == home.value[0];
    }
  }

  /** Each entry of the result: the first entry with that id put in order, or the default that was missing. */
  lemma EnsuredEntry(home: Home, s: State, now: string, id: string)
    requires HasId(Ensure(home, s, now).workspaces, id)
    ensures var ws := Ensure(home, s, now).workspaces;
      if !Blank(id) && HasId(s.workspaces, id) then
        ws[Find(ws, id)]
        == CleanOne(home, MigrateOne(home, s.workspaces[Find(s.workspaces, id)]), FallbackPath(home, s), now)
      else
        id == DEFAULT && ws[Find(ws, id)] == DefaultWorkspace(FallbackPath(home, s), now)
  {
    var fallback := FallbackPath(home, s);
    var m := MigrateAll(home, s.workspaces);
    var cleaned := CleanAll(home, m, fallback, now);
    CleanedEntry(home, m, id, fallback, now);
    MigrateKeepsIds(home, s.workspaces, id);
    if !HasId(cleaned, DEFAULT) {
      var all := cleaned + [DefaultWorkspace(fallback, now)];
      HasIdSnoc(cleaned, DefaultWorkspace(fallback, now), id);
      FindSnoc(cleaned, DefaultWorkspace(fallback, now), id);
    }
  }

  lemma EntryNormal(home: Home, s: State, now: string, i: nat)
    requires !Blank(now) && i < |Ensure(home, s, now).workspaces|
    requires var id := Ensure(home, s, now).workspaces[i].id;
      || !Blank(s.workspace) || home.None? || id != DEFAULT
      || (HasId(s.workspaces, DEFAULT) && HasDirectory(s.workspaces[Find(s.workspaces, DEFAULT)]))
    ensures Normal(home, Ensure(home, s, now).workspaces[i])
  {
    var ws := Ensure(home, s, now).workspaces;
    var id := ws[i].id;
    EnsureConsistent(home, s, now);
    assert HasId(ws, id) && Find(ws, id) == i;
    EnsuredEntry(home, s, now, id);
    FallbackSettled(home, s);
    BlankIsTrimmed();
    if !Blank(id) && HasId(s.workspaces, id) {
      CleanedOne(home, s.workspaces[Find(s.workspaces, id)], FallbackPath(home, s), now);
    } else {
      assert "Default Workspace"[0] == 'D';
    }
  }

  /** A default workspace resting on the unexpanded fallback is expanded by the next run. */
  lemma RawDefaultMoves(home: Home, s: State, now: string, later: string)
    requires home.Some? && Blank(s.workspace) && !Blank(now)
    requires !HasId(s.workspaces, DEFAULT) || !HasDirectory(s.workspaces[Find(s.workspaces, DEFAULT)])
    ensures Ensure(home, Ensure(home, s, now), later) != Ensure(home, s, now)
  {
    var e := Ensure(home, s, now);
    BlankIsTrimmed();
    FallbackSettled(home, s);
    EnsureConsistent(home, s, now);
    EnsuredEntry(home, s, now, DEFAULT);
    var d := e.workspaces[Find(e.workspaces, DEFAULT)];
    if HasId(s.workspaces, DEFAULT) {
      CleanedOne(home, s.workspaces[Find(s.workspaces, DEFAULT)], DEFAULT_PATH, now);
    }
    assert d.paths == [Fallback(DEFAULT_PATH)];
    EnsureConsistent(home, e, later);
    EnsuredEntry(home, e, later, DEFAULT);
    RawPathMoves(home, d, FallbackPath(home, e), later);
  }

  lemma RawPathMoves(home: Home, d: Workspace, fallback: string, now: string)
    requires d.paths == [Fallback(DEFAULT_PATH)] && Tilde(home, DEFAULT_PATH) != DEFAULT_PATH
    ensures CleanOne(home, MigrateOne(home, d), fallback, now) != d
  {
    TildeTwice(home, DEFAULT_PATH);
    TildeBlank(home, DEFAULT_PATH);
    BlankIsTrimmed();
    var p := Fallback(DEFAULT_PATH).(path := Tilde(home, DEFAULT_PATH));
    assert ExpandPaths(home, d.paths) == [p];
    assert ExpandPaths(home, [p]) == [p];
  }

  /** So is an active workspace without a directory. */
  lemma RawActiveMoves(home: Home, s: State, now: string, later: string)
    requires home.Some? && Blank(s.workspace) && !Blank(now)
    requires HasId(s.workspaces, DEFAULT) && HasDirectory(s.workspaces[Find(s.workspaces, DEFAULT)])
    requires s.active.Some? && !Blank(s.active.value) && HasId(s.workspaces, s.active.value)
    requires !HasDirectory(s.workspaces[Find(s.workspaces, s.active.value)])
    ensures Ensure(home, Ensure(home, s, now), later) != Ensure(home, s, now)
  {
    var e, id := Ensure(home, s, now), s.active.value;
    FallbackSettled(home, s);
    var m := MigrateAll(home, s.workspaces);
    CleanedEntry(home, m, id, DEFAULT_PATH, now);
    MigrateKeepsIds(home, s.workspaces, id);
    var cleaned := CleanAll(home, m, DEFAULT_PATH, now);
    if !HasId(cleaned, DEFAULT) {
      HasIdSnoc(cleaned, DefaultWorkspace(DEFAULT_PATH, now), id);
    }
    assert e.active == Some(id);
    EnsuredEntry(home, s, now, id);
    CleanedOne(home, s.workspaces[Find(s.workspaces, id)], DEFAULT_PATH, now);
    assert e.workspace == DEFAULT_PATH;
  }

  /**
   Putting a list in order is idempotent, whatever the clock says the second time, unless the configured
   workspace path is blank, there is a home directory, and the fallback is used: then, and only then, the
   second run still expands its tilde.
  */
  lemma EnsureTwice(home: Home, s: State, now: string, later: string)
    requires !Blank(now)
    ensures Ensure(home, Ensure(home, s, now), later) == Ensure(home, s, now)
            <==> !Blank(s.workspace) || home.None? || Grounded(s)
  {
    if !Blank(s.workspace) || home.None? || Grounded(s) {
      EnsureInOrder(home, s, now);
      InOrderFixed(home, Ensure(home, s, now), later);
    } else if HasId(s.workspaces, DEFAULT) && HasDirectory(s.workspaces[Find(s.workspaces, DEFAULT)]) {
      RawActiveMoves(home, s, now, later);
    } else {
      RawDefaultMoves(home, s, now, later);
    }
  }

  // ---- adding and removing --------------------------------------------------------------------

  lemma WithoutAbsent(ws: seq<Workspace>, id: string)
    requires !HasId(ws, id)
    ensures Without(ws, id) == ws
  {
    if |ws| > 0 {
      assert forall i :: 0 <= i < |ws| - 1 ==> ws[..|ws| - 1][i] == ws[i];
      WithoutAbsent(ws[..|ws| - 1], id);
    }
  }

  /** A list in order with one more workspace: the old part stays, a blank id is dropped again. */
  lemma ListAdded(home: Home, ws: seq<Workspace>, v: Workspace, fallback: string, now: string)
    requires forall i :: 0 <= i < |ws| ==> Normal(home, ws[i])
    requires DistinctIds(ws) && HasId(ws, DEFAULT) && !HasId(ws, v.id)
    ensures WithDefault(CleanAll(home, MigrateAll(home, ws + [v]), fallback, now), fallback, now)
            == if Blank(v.id) then ws else ws + [CleanOne(home, MigrateOne(home, v), fallback, now)]
  {
    forall i | 0 <= i < |ws|
      ensures MigrateOne(home, ws[i]) == ws[i] && Cleaner(home, fallback, now)(ws[i]) == ws[i]
    {
      NormalFixed(home, ws[i], fallback, now);
    }
    var m := MigrateOne(home, v);
    assert MigrateAll(home, ws + [v]) == ws + [m];
    KeepFirstFixed(ws, Cleaner(home, fallback, now));
    assert (ws + [m])[..|ws|] == ws;
    HasIdSnoc(ws, CleanOne(home, m, fallback, now), DEFAULT);
  }

  lemma EnsureAdded(home: Home, s: State, v: Workspace, now: string)
    requires InOrder(home, s) && !HasId(s.workspaces, v.id)
    ensures var t := s.(workspaces := s.workspaces + [v]);
      Ensure(home, t, now)
      == s.(workspaces := if Blank(v.id) then s.workspaces
                          else s.workspaces + [CleanOne(home, MigrateOne(home, v), FallbackPath(home, t), now)])
  {
    var ws, id := s.workspaces, s.active.value;
    var t := s.(workspaces := ws + [v]);
    ListAdded(home, ws, v, FallbackPath(home, t), now);
    var c := CleanOne(home, MigrateOne(home, v), FallbackPath(home, t), now);
    HasIdSnoc(ws, c, id);
    FindSnoc(ws, c, id);
    SettledFallback(home, s);
  }

  lemma SettledFallback(home: Home, s: State)
    ensures Settled(home, s.workspace) ==> FallbackPath(home, s) == s.workspace
  {
  }

  lemma WithoutLast(ws: seq<Workspace>, c: Workspace, id: string)
    requires !HasId(ws, id) && c.id == id
    ensures Without(ws + [c], id) == ws
  {
    WithoutAbsent(ws, id);
    assert (ws + [c])[..|ws|] == ws;
  }

  lemma AddThenRemoveInOrder(home: Home, s: State, w: Workspace, now: string)
    requires InOrder(home, s) && !HasId(s.workspaces, w.id)
    ensures Apply(home, Apply(home, s, Add(w), now), Remove(w.id), now) == s
  {
    InOrderFixed(home, s, now);
    var v := Accepted(home, w, now);
    var t := s.(workspaces := s.workspaces + [v]);
    assert Apply(home, s, Add(w), now) == t;
    EnsureAdded(home, s, v, now);
    RemoveAdded(home, s, CleanOne(home, MigrateOne(home, v), FallbackPath(home, t), now), w.id, now);
  }

  lemma RemoveAdded(home: Home, s: State, c: Workspace, id: string, now: string)
    requires Consistent(s) && !HasId(s.workspaces, id) && c.id == id
    ensures Edit(home, s, Remove(id), now).Refused?
    ensures Edit(home, s.(workspaces := s.workspaces + [c]), Remove(id), now) == Done(s)
  {
    WithoutLast(s.workspaces, c, id);
    HasIdSnoc(s.workspaces, c, id);
  }

  /**
   Adding a workspace and removing it again leaves what putting the list in order leaves,
   whatever was added; a blank id is dropped by the second call and its removal refused.
  */
  lemma AddThenRemove(home: Home, s: State, w: Workspace, now: string)
    requires !Blank(now) && !HasId(Ensure(home, s, now).workspaces, w.id)
    requires !Blank(s.workspace) || home.None? || Grounded(s)
    ensures Apply(home, Apply(home, s, Add(w), now), Remove(w.id), now) == Ensure(home, s, now)
  {
    var e := Ensure(home, s, now);
    EnsureInOrder(home, s, now);
    InOrderFixed(home, e, now);
    assert Apply(home, s, Add(w), now) == Apply(home, e, Add(w), now);
    AddThenRemoveInOrder(home, e, w, now);
  }

  /** With nothing configured and a home directory, the second run moves the fallback. */
  lemma BlankWorkspaceMoves(now: string, later: string)
    requires !Blank(now)
    ensures var home: Home := Some("/home/user");
      var e := Ensure(home, State("", [], None), now);
      Ensure(home, e, later) != e
  {
    var home: Home := Some("/home/user");
    BlankIsTrimmed();
    RawDefaultMoves(home, State("", [], None), now, later);
  }

  // ---- what a call answers -------------------------------------------------------------------------

  /** On a list in order the call did the edit, or said why not and changed nothing more. */
  ghost predicate Answers(home: Home, e: State, op: Operation, now: string, refused: Option<Refusal>, after: State) {
    match Edit(home, e, op, now)
    case Done(t) => refused == None && after == t
    case Refused(why) => refused == Some(why) && after == e
  }

  /** `retain` shortens the list just when the id was there. */
  lemma {:induction false} WithoutLength(ws: seq<Workspace>, id: string)
    ensures |Without(ws, id)| <= |ws|
    ensures |Without(ws, id)| == |ws| <==> !HasId(ws, id)
    ensures !HasId(ws, id) ==> Without(ws, id) == ws
  {
    if |ws| > 0 {
      var init, w := ws[..|ws| - 1], ws[|ws| - 1];
      assert ws == init + [w];
      WithoutLength(init, id);
      HasIdSnoc(init, w, id);
    }
  }
}
