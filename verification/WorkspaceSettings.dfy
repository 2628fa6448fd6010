/**
 The configuration object with its workspace operations (src/config.rs:2050-2079, 2158-2254, 2339-2495),
 updated in place. Each method is tied to the functions of Workspaces, and says outright what it does to
 the list.
*/
module WorkspaceSettings {
  import opened RustText
  import opened Workspaces
  import opened WorkspaceEffects

  // ---- searching and cleaning ------------------------------------------------------------------

  method Contains(ws: seq<Workspace>, id: string) returns (found: bool)
    ensures found <==> HasId(ws, id)
  {
    found := false;
    var i := 0;
    while i < |ws|
      invariant i <= |ws|
      invariant found <==> exists k :: 0 <= k < i && ws[k].id == id
    {
      if ws[i].id == id { found := true; }
      i := i + 1;
    }
  }

  /** What the cleaning loop does to a workspace it keeps. */
  method CleanWorkspace(home: Home, w: Workspace, fallback: string, now: string) returns (v: Workspace)
    ensures v == CleanOne(home, w, fallback, now)
  {
    var paths := ExpandPaths(home, w.paths);
    if |paths| == 0 && !Blank(w.path) { paths := [Primary(home, w)]; }
    if w.id == DEFAULT && |paths| == 0 { paths := [Fallback(fallback)]; }
    v := w.(paths := paths);
    v := v.(path := Resolved(v));
    if Blank(v.name) { v := v.(name := v.id); }
    if Blank(v.createdAt) { v := v.(createdAt := now); }
  }

  lemma NoIds()
    ensures forall id :: !HasId([], id)
  {
  }

  /** The cleaning loop with its set of ids already seen. */
  method CleanList(home: Home, ws: seq<Workspace>, fallback: string, now: string) returns (cleaned: seq<Workspace>)
    ensures cleaned == CleanAll(home, ws, fallback, now)
    ensures DistinctIds(cleaned)
  {
    hide CleanOne, Blank, DistinctIds, HasId;
    NoIds();
    CleanerKeepsIds(home, fallback, now);
    var seen: set<string> := {};
    cleaned := [];
    ghost var clean := Cleaner(home, fallback, now);
    for i := 0 to |ws|
      invariant cleaned == KeepFirst(ws[..i], clean)
      invariant forall id :: id in seen <==> HasId(cleaned, id)
    {
      KeepFirstSnoc(ws[..i], ws[i], clean);
      assert ws[..i + 1] == ws[..i] + [ws[i]];
      var w := ws[i];
      if Blank(w.id) || w.id in seen { continue; }
      seen := seen + {w.id};
      var v := CleanWorkspace(home, w, fallback, now);
      assert v == clean(w);
      SnocIds(cleaned, v);
      cleaned := cleaned + [v];
    }
    assert ws[..|ws|] == ws;
    KeepFirstDistinct(ws, Cleaner(home, fallback, now));
  }

  // ---- the configuration object ------------------------------------------------------------------

  class Settings {
    var workspace: string
    var workspaces: seq<Workspace>
    var active: Option<string>

    constructor (s: State)
      ensures Value() == s
    {
      workspace, workspaces, active := s.workspace, s.workspaces, s.active;
    }

    function Value(): State
      reads this
    {
      State(workspace, workspaces, active)
    }

    method MigrateWorkspacePaths(home: Home)
      modifies this`workspaces
      ensures workspaces == MigrateAll(home, old(workspaces))
    {
      var i := 0;
      while i < |workspaces|
        invariant i <= |workspaces| == |old(workspaces)|
        invariant forall k :: 0 <= k < i ==> workspaces[k] == MigrateOne(home, old(workspaces)[k])
        invariant forall k :: i <= k < |workspaces| ==> workspaces[k] == old(workspaces)[k]
      {
        var ws := workspaces[i];
        if |ws.paths| == 0 && ws.path != "" {
          ws := ws.(paths := [Primary(home, ws)]);
        }
        ws := ws.(paths := ExpandPaths(home, ws.paths));
        ws := ws.(path := Resolved(ws));
        workspaces := workspaces[i := ws];
        i := i + 1;
      }
    }

    method EnsureWorkspaceDefaults(home: Home, now: string)
      modifies this
      ensures Value() == Ensure(home, old(Value()), now)
      ensures Tidied(home, old(Value()), now, Value())
    {
      hide Tidied, CleanAll, MigrateAll;
      EnsureTidies(home, Value(), now);
      MigrateWorkspacePaths(home);
      var fallback := if Blank(workspace) then DEFAULT_PATH else Tilde(home, workspace);
      workspace := fallback;
      var cleaned := CleanList(home, workspaces, fallback, now);
      var present := Contains(cleaned, DEFAULT);
      DefaultPresent(cleaned, fallback, now);
      if !present {
        cleaned := cleaned + [DefaultWorkspace(fallback, now)];
      }
      workspaces := cleaned;
      var member := false;
      if active.Some? {
        member := Contains(workspaces, active.value);
      }
      var id := if member then active.value else DEFAULT;
      active := Some(id);
      var path := Resolved(workspaces[Find(workspaces, id)]);
      workspace := if Blank(path) then fallback else path;
    }

    /** New paths for one workspace, and its path after them. */
    method PutPaths(i: nat, paths: seq<WorkspacePath>)
      requires i < |workspaces|
      modifies this`workspaces
      ensures workspaces == old(workspaces)[i := Resolve(old(workspaces)[i].(paths := paths))]
    {
      var ws := workspaces[i].(paths := paths);
      ws := ws.(path := Resolved(ws));
      workspaces := workspaces[i := ws];
    }

    method InsertListed(home: Home, w: Workspace, now: string) returns (refused: Option<Refusal>)
      modifies this
      ensures Answers(home, old(Value()), Add(w), now, refused, Value())
    {
      var taken := Contains(workspaces, w.id);
      if taken { return Some(AlreadyExists); }
      var v := w.(paths := ExpandPaths(home, w.paths));
      v := v.(path := Resolved(v));
      if Blank(v.createdAt) { v := v.(createdAt := now); }
      workspaces := workspaces + [v];
      return None;
    }

    method AddWorkspace(home: Home, w: Workspace, now: string) returns (refused: Option<Refusal>)
      modifies this
      ensures Answers(home, Ensure(home, old(Value()), now), Add(w), now, refused, Value())
      ensures Added(home, Ensure(home, old(Value()), now), w, now, refused, Value())
    {
      EnsureWorkspaceDefaults(home, now);
      ghost var e := Value();
      refused := InsertListed(home, w, now);
      AddIs(home, e, w, now, refused, Value());
    }

    method ReplaceListed(home: Home, w: Workspace, now: string) returns (refused: Option<Refusal>)
      modifies this
      ensures Answers(home, old(Value()), Update(w), now, refused, Value())
    {
      var found := Contains(workspaces, w.id);
      if !found { return Some(NotFound); }
      var i := Find(workspaces, w.id);
      var v := w.(paths := ExpandPaths(home, w.paths));
      v := v.(path := Resolved(v));
      if Blank(v.createdAt) { v := v.(createdAt := workspaces[i].createdAt); }
      workspaces := workspaces[i := v];
      return None;
    }

    method UpdateWorkspace(home: Home, w: Workspace, now: string) returns (refused: Option<Refusal>)
      modifies this
      ensures Answers(home, Ensure(home, old(Value()), now), Update(w), now, refused, Value())
      ensures Updated(home, Ensure(home, old(Value()), now), w, refused, Value())
    {
      EnsureWorkspaceDefaults(home, now);
      ghost var e := Value();
      refused := ReplaceListed(home, w, now);
      UpdateIs(home, e, w, now, refused, Value());
    }

    method ExtendPaths(home: Home, id: string, entry: WorkspacePath, now: string) returns (refused: Option<Refusal>)
      modifies this
      ensures Answers(home, old(Value()), AddPath(id, entry), now, refused, Value())
    {
      var found := Contains(workspaces, id);
      if !found { return Some(NotFound); }
      var i := Find(workspaces, id);
      var paths := workspaces[i].paths + [Expanded(home, entry)];
      PutPaths(i, Retain(paths));
      return None;
    }

    method AddWorkspacePath(home: Home, id: string, entry: WorkspacePath, now: string)
      returns (refused: Option<Refusal>)
      modifies this
      ensures Answers(home, Ensure(home, old(Value()), now), AddPath(id, entry), now, refused, Value())
      ensures PathAdded(home, Ensure(home, old(Value()), now), id, entry, refused, Value())
    {
      EnsureWorkspaceDefaults(home, now);
      ghost var e := Value();
      refused := ExtendPaths(home, id, entry, now);
      AddPathIs(home, e, id, entry, now, refused, Value());
    }

    method DropPath(home: Home, id: string, index: nat, now: string) returns (refused: Option<Refusal>)
      modifies this
      ensures Answers(home, old(Value()), RemovePath(id, index), now, refused, Value())
    {
      var found := Contains(workspaces, id);
      if !found { return Some(NotFound); }
      var i := Find(workspaces, id);
      var paths := workspaces[i].paths;
      if |paths| <= 1 { return Some(LastPath); }
      if index >= |paths| { return Some(OutOfBounds); }
      PutPaths(i, paths[..index] + paths[index + 1..]);
      return None;
    }

    method RemoveWorkspacePath(home: Home, id: string, index: nat, now: string) returns (refused: Option<Refusal>)
      modifies this
      ensures Answers(home, Ensure(home, old(Value()), now), RemovePath(id, index), now, refused, Value())
      ensures PathRemoved(Ensure(home, old(Value()), now), id, index, refused, Value())
    {
      EnsureWorkspaceDefaults(home, now);
      ghost var e := Value();
      refused := DropPath(home, id, index, now);
      RemovePathIs(home, e, id, index, now, refused, Value());
    }

    method ReplacePath(home: Home, id: string, index: nat, entry: WorkspacePath, now: string)
      returns (refused: Option<Refusal>)
      modifies this
      ensures Answers(home, old(Value()), UpdatePath(id, index, entry), now, refused, Value())
    {
      var found := Contains(workspaces, id);
      if !found { return Some(NotFound); }
      var i := Find(workspaces, id);
      if index >= |workspaces[i].paths| { return Some(OutOfBounds); }
      var paths := workspaces[i].paths[index := Expanded(home, entry)];
      PutPaths(i, Retain(paths));
      return None;
    }

    method UpdateWorkspacePath(home: Home, id: string, index: nat, entry: WorkspacePath, now: string)
      returns (refused: Option<Refusal>)
      modifies this
      ensures Answers(home, Ensure(home, old(Value()), now), UpdatePath(id, index, entry), now, refused, Value())
      ensures PathUpdated(home, Ensure(home, old(Value()), now), id, index, entry, refused, Value())
    {
      EnsureWorkspaceDefaults(home, now);
      ghost var e := Value();
      refused := ReplacePath(home, id, index, entry, now);
      UpdatePathIs(home, e, id, index, entry, now, refused, Value());
    }

    method DropListed(home: Home, id: string, now: string) returns (refused: Option<Refusal>)
      modifies this
      ensures Answers(home, old(Value()), Remove(id), now, refused, Value())
    {
      if id == DEFAULT { return Some(DefaultProtected); }
      var before := |workspaces|;
      WithoutLength(workspaces, id);
      workspaces := Without(workspaces, id);
      if |workspaces| == before {
        refused := Some(NotFound);
      } else {
        refused := None;
        if active == Some(id) { active := Some(DEFAULT); }
      }
    }

    method RemoveWorkspace(home: Home, id: string, now: string) returns (refused: Option<Refusal>)
      modifies this
      ensures Answers(home, Ensure(home, old(Value()), now), Remove(id), now, refused, Value())
      ensures Removed(Ensure(home, old(Value()), now), id, refused, Value())
    {
      EnsureWorkspaceDefaults(home, now);
      ghost var e := Value();
      refused := DropListed(home, id, now);
      RemoveIs(home, e, id, now, refused, Value());
    }
  }
}
