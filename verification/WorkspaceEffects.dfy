/**
 What the workspace operations do to the list (src/config.rs:2050-2079, 2158-2254, 2339-2495), stated on the
 lists before and after and without the functions that compute them: which entries and paths stay, which are
 new, and when an operation is refused.
*/
module WorkspaceEffects {
  import opened RustText
  import opened Workspaces

  // ---- lists ---------------------------------------------------------------------------------

  /** `r` is what is left of `s` when only the elements that pass are kept, in order. */
  ghost predicate Selection<T>(s: seq<T>, r: seq<T>, keep: T -> bool) {
    exists at: seq<nat> :: SelectedAt(s, r, keep, at)
  }

  ghost predicate SelectedAt<T>(s: seq<T>, r: seq<T>, keep: T -> bool, at: seq<nat>) {
    && |at| == |r|
    && (forall k :: 0 <= k < |at| ==> at[k] < |s| && r[k] == s[at[k]])
    && (forall k, n :: 0 <= k < n < |at| ==> at[k] < at[n])
    && (forall i: nat :: i in at <==> i < |s| && keep(s[i]))
  }

  lemma SelectedSnoc<T>(s: seq<T>, r: seq<T>, keep: T -> bool, at: seq<nat>, x: T)
    requires SelectedAt(s, r, keep, at)
    ensures keep(x) ==> SelectedAt(s + [x], r + [x], keep, at + [|s|])
    ensures !keep(x) ==> SelectedAt(s + [x], r, keep, at)
  {
    forall k | 0 <= k < |at| ensures at[k] < |s| { assert at[k] in at; }
    assert forall i: nat :: i in at + [|s|] <==> i in at || i == |s|;
  }

  lemma SelectionNone<T>(keep: T -> bool)
    ensures Selection([], [], keep)
  {
    var at: seq<nat> := [];
    assert SelectedAt([], [], keep, at);
  }

  lemma SelectionSnoc<T>(s: seq<T>, r: seq<T>, keep: T -> bool, x: T)
    requires Selection(s, r, keep)
    ensures Selection(s + [x], if keep(x) then r + [x] else r, keep)
  {
    var at :| SelectedAt(s, r, keep, at);
    SelectedSnoc(s, r, keep, at, x);
  }

  predicate Visible(p: WorkspacePath) { !Blank(p.path) }

  /** The path of the first visible entry, or what it was before when there is none. */
  ghost predicate ResolvesTo(paths: seq<WorkspacePath>, before: string, path: string) {
    if exists k :: 0 <= k < |paths| && Visible(paths[k]) then
      exists k :: 0 <= k < |paths| && Visible(paths[k]) && path == paths[k].path
        && forall n :: 0 <= n < k ==> !Visible(paths[n])
    else path == before
  }

  /** `~` alone or before a slash stands for the home directory, if there is one. */
  ghost predicate ExpandsTo(home: Home, s: string, t: string) {
    if home.Some? && (s == "~" || "~/" <= s) then exists rest :: s == "~" + rest && t == home.value + rest else t == s
  }

  ghost predicate PathExpanded(home: Home, p: WorkspacePath, q: WorkspacePath) {
    q.permission == p.permission && q.description == p.description && ExpandsTo(home, p.path, q.path)
  }

  /** The paths expanded, and the visible ones kept in order. */
  ghost predicate PathsExpanded(home: Home, paths: seq<WorkspacePath>, kept: seq<WorkspacePath>) {
    exists all: seq<WorkspacePath> ::
      && |all| == |paths| && (forall k :: 0 <= k < |paths| ==> PathExpanded(home, paths[k], all[k]))
      && Selection(all, kept, Visible)
  }

  lemma TildeExpands(home: Home, s: string)
    ensures ExpandsTo(home, s, Tilde(home, s))
  {
    if home.Some? && (s == "~" || "~/" <= s) {
      assert s == "~" + s[1..];
      assert s[0] == '~' && (|s| == 1 || s[1] == '/');
      assert Tilde(home, s) == home.value + s[1..];
    } else if |s| > 0 && s[0] == '~' && (|s| == 1 || s[1] == '/') {
      assert s == "~" || "~/" <= s by {
        if |s| > 1 { assert s[..2] == "~/"; } else { assert s == "~"; }
      }
    }
  }

  lemma ExpandedIs(home: Home, p: WorkspacePath)
    ensures PathExpanded(home, p, Expanded(home, p))
  {
    TildeExpands(home, p.path);
  }

  lemma {:induction false} ResolvedIs(paths: seq<WorkspacePath>, before: string)
    ensures ResolvesTo(paths, before, FirstPath(paths, before))
  {
    if |paths| > 0 && Blank(paths[0].path) {
      var rest := paths[1..];
      ResolvedIs(rest, before);
      assert forall k :: 0 < k < |paths| ==> paths[k] == rest[k - 1];
      if exists k :: 0 <= k < |rest| && Visible(rest[k]) {
        var k :| 0 <= k < |rest| && Visible(rest[k]) && FirstPath(rest, before) == rest[k].path
          && forall n :: 0 <= n < k ==> !Visible(rest[n]);
        assert Visible(paths[k + 1]) && paths[k + 1] == rest[k];
        forall n | 0 <= n < k + 1 ensures !Visible(paths[n]) { if n > 0 { assert paths[n] == rest[n - 1]; } }
      }
    } else if |paths| > 0 {
      assert Visible(paths[0]);
    }
  }

  lemma {:induction false} RetainSnoc(paths: seq<WorkspacePath>, p: WorkspacePath)
    ensures Retain(paths + [p]) == Retain(paths) + if Blank(p.path) then [] else [p]
  {
    hide Blank;
    var more := if Blank(p.path) then [] else [p];
    if |paths| == 0 {
      assert paths + [p] == [p] && [p][1..] == [];
      assert Retain([]) == [] && Retain([p]) == more + [];
    } else {
      assert (paths + [p])[1..] == paths[1..] + [p];
      RetainSnoc(paths[1..], p);
      var first := if Blank(paths[0].path) then [] else [paths[0]];
      assert first + (Retain(paths[1..]) + more) == first + Retain(paths[1..]) + more;
    }
  }

  lemma {:induction false} RetainSelects(paths: seq<WorkspacePath>)
    ensures Selection(paths, Retain(paths), Visible)
  {
    if |paths| == 0 {
      SelectionNone(Visible);
      assert paths == [];
    } else {
      var init, p := paths[..|paths| - 1], paths[|paths| - 1];
      assert paths == init + [p];
      RetainSelects(init);
      RetainSnoc(init, p);
      SelectionSnoc(init, Retain(init), Visible, p);
      assert Retain(init) + [] == Retain(init);
    }
  }

  function ExpandedAll(home: Home, paths: seq<WorkspacePath>): (all: seq<WorkspacePath>)
    ensures |all| == |paths| && forall k :: 0 <= k < |paths| ==> all[k] == Expanded(home, paths[k])
  {
    seq(|paths|, k requires 0 <= k < |paths| => Expanded(home, paths[k]))
  }

  lemma {:induction false} ExpandIsRetain(home: Home, paths: seq<WorkspacePath>)
    ensures ExpandPaths(home, paths) == Retain(ExpandedAll(home, paths))
  {
    if |paths| > 0 {
      ExpandIsRetain(home, paths[1..]);
      assert ExpandedAll(home, paths)[1..] == ExpandedAll(home, paths[1..]);
    }
  }

  lemma ExpandSelects(home: Home, paths: seq<WorkspacePath>)
    ensures PathsExpanded(home, paths, ExpandPaths(home, paths))
  {
    var all := ExpandedAll(home, paths);
    ExpandIsRetain(home, paths);
    RetainSelects(all);
    forall k | 0 <= k < |paths| ensures PathExpanded(home, paths[k], all[k]) { ExpandedIs(home, paths[k]); }
  }

  // ---- the operations on a list in order ---------------------------------------------------------------

  ghost predicate Lacks(ws: seq<Workspace>, id: string) { forall i :: 0 <= i < |ws| ==> ws[i].id != id }

  ghost predicate IsAt(ws: seq<Workspace>, id: string, i: nat) {
    i < |ws| && ws[i].id == id && forall j :: 0 <= j < i ==> ws[j].id != id
  }

  /** Everything but the workspace at `i` is as before. */
  ghost predicate OnlyAt(e: State, after: State, i: nat) {
    && |after.workspaces| == |e.workspaces| && i < |e.workspaces|
    && (forall j :: 0 <= j < |e.workspaces| && j != i ==> after.workspaces[j] == e.workspaces[j])
    && after.active == e.active && after.workspace == e.workspace
  }

  /** Only the paths have changed, and the resolved path with them. */
  ghost predicate OnlyPaths(w: Workspace, v: Workspace) {
    v == w.(paths := v.paths, path := v.path) && ResolvesTo(v.paths, w.path, v.path)
  }

  ghost predicate RefusedAs(e: State, refused: Option<Refusal>, after: State, why: Refusal) {
    refused == Some(why) && after == e
  }

  /** The incoming workspace with its paths expanded and resolved, and a creation date if it had none. */
  ghost predicate TakenOver(home: Home, w: Workspace, created: string, v: Workspace) {
    && v == w.(paths := v.paths, path := v.path, createdAt := if Blank(w.createdAt) then created else w.createdAt)
    && PathsExpanded(home, w.paths, v.paths) && ResolvesTo(v.paths, w.path, v.path)
  }

  ghost predicate Added(home: Home, e: State, w: Workspace, now: string, refused: Option<Refusal>, after: State) {
    if !Lacks(e.workspaces, w.id) then RefusedAs(e, refused, after, AlreadyExists)
    else
      && refused == None && |after.workspaces| == |e.workspaces| + 1
      && after.workspaces[..|e.workspaces|] == e.workspaces
      && TakenOver(home, w, now, after.workspaces[|e.workspaces|])
      && after.active == e.active && after.workspace == e.workspace
  }

  ghost predicate Updated(home: Home, e: State, w: Workspace, refused: Option<Refusal>, after: State) {
    if Lacks(e.workspaces, w.id) then RefusedAs(e, refused, after, NotFound)
    else refused == None && exists i: nat ::
      IsAt(e.workspaces, w.id, i) && OnlyAt(e, after, i)
      && TakenOver(home, w, e.workspaces[i].createdAt, after.workspaces[i])
  }

  ghost predicate PathAdded(home: Home, e: State, id: string, entry: WorkspacePath, refused: Option<Refusal>,
                            after: State) {
    if Lacks(e.workspaces, id) then RefusedAs(e, refused, after, NotFound)
    else refused == None && exists i: nat, more: WorkspacePath ::
      && IsAt(e.workspaces, id, i) && OnlyAt(e, after, i) && OnlyPaths(e.workspaces[i], after.workspaces[i])
      && PathExpanded(home, entry, more)
      && Selection(e.workspaces[i].paths + [more], after.workspaces[i].paths, Visible)
  }

  /** One path fewer: those before the index stay, those behind it move up. */
  ghost predicate OneDropped(paths: seq<WorkspacePath>, kept: seq<WorkspacePath>, index: nat) {
    && |kept| == |paths| - 1
    && (forall k :: 0 <= k < |kept| && k < index ==> kept[k] == paths[k])
    && (forall k :: index <= k < |kept| ==> kept[k] == paths[k + 1])
  }

  ghost predicate PathRemoved(e: State, id: string, index: nat, refused: Option<Refusal>, after: State) {
    if Lacks(e.workspaces, id) then RefusedAs(e, refused, after, NotFound)
    else exists i: nat ::
      && IsAt(e.workspaces, id, i)
      && var paths := e.workspaces[i].paths;
         if |paths| <= 1 then RefusedAs(e, refused, after, LastPath)
         else if index >= |paths| then RefusedAs(e, refused, after, OutOfBounds)
         else && refused == None && OnlyAt(e, after, i) && OnlyPaths(e.workspaces[i], after.workspaces[i])
              && OneDropped(paths, after.workspaces[i].paths, index)
  }

  ghost predicate PathUpdated(home: Home, e: State, id: string, index: nat, entry: WorkspacePath,
                              refused: Option<Refusal>, after: State) {
    if Lacks(e.workspaces, id) then RefusedAs(e, refused, after, NotFound)
    else exists i: nat ::
      && IsAt(e.workspaces, id, i)
      && var paths := e.workspaces[i].paths;
         if index >= |paths| then RefusedAs(e, refused, after, OutOfBounds)
         else && refused == None && OnlyAt(e, after, i) && OnlyPaths(e.workspaces[i], after.workspaces[i])
              && exists changed: WorkspacePath :: PathExpanded(home, entry, changed)
                   && Selection(paths[index := changed], after.workspaces[i].paths, Visible)
  }

  function Other(id: string): Workspace -> bool { (w: Workspace) => w.id != id }

  ghost predicate Removed(e: State, id: string, refused: Option<Refusal>, after: State) {
    if id == "default" then RefusedAs(e, refused, after, DefaultProtected)
    else if Lacks(e.workspaces, id) then RefusedAs(e, refused, after, NotFound)
    else
      && refused == None && Selection(e.workspaces, after.workspaces, Other(id))
      && after.active == (if e.active == Some(id) then Some("default") else e.active)
      && after.workspace == e.workspace
  }

  // ---- the edits do that ------------------------------------------------------------------------------

  lemma LacksIs(ws: seq<Workspace>, id: string)
    ensures Lacks(ws, id) <==> !HasId(ws, id)
    ensures HasId(ws, id) ==> IsAt(ws, id, Find(ws, id))
  {
  }

  lemma AcceptedIs(home: Home, w: Workspace, created: string)
    ensures TakenOver(home, w, created, Accepted(home, w, created))
  {
    hide ExpandPaths, FirstPath, PathsExpanded, ResolvesTo;
    ExpandSelects(home, w.paths);
    ResolvedIs(ExpandPaths(home, w.paths), w.path);
  }

  lemma AddIs(home: Home, e: State, w: Workspace, now: string, refused: Option<Refusal>, after: State)
    requires Answers(home, e, Add(w), now, refused, after)
    ensures Added(home, e, w, now, refused, after)
  {
    hide Accepted, TakenOver;
    LacksIs(e.workspaces, w.id);
    AcceptedIs(home, w, now);
  }

  lemma UpdateIs(home: Home, e: State, w: Workspace, now: string, refused: Option<Refusal>, after: State)
    requires Answers(home, e, Update(w), now, refused, after)
    ensures Updated(home, e, w, refused, after)
  {
    hide Accepted, TakenOver, Find;
    LacksIs(e.workspaces, w.id);
    if HasId(e.workspaces, w.id) {
      AcceptedIs(home, w, e.workspaces[Find(e.workspaces, w.id)].createdAt);
    }
  }

  /** New paths for the workspace of an id. */
  lemma PathsSet(e: State, id: string, paths: seq<WorkspacePath>) returns (i: nat)
    requires HasId(e.workspaces, id)
    ensures i == Find(e.workspaces, id) && IsAt(e.workspaces, id, i)
    ensures var after := SetPaths(e, id, paths);
            && OnlyAt(e, after, i) && OnlyPaths(e.workspaces[i], after.workspaces[i])
            && |after.workspaces| == |e.workspaces| && after.workspaces[i].paths == paths
  {
    hide FirstPath, ResolvesTo, Find;
    LacksIs(e.workspaces, id);
    i := Find(e.workspaces, id);
    ResolvedIs(paths, e.workspaces[i].path);
  }

  lemma AddPathIs(home: Home, e: State, id: string, entry: WorkspacePath, now: string,
                  refused: Option<Refusal>, after: State)
    requires Answers(home, e, AddPath(id, entry), now, refused, after)
    ensures PathAdded(home, e, id, entry, refused, after)
  {
    hide Retain, Selection, SetPaths, OnlyAt, OnlyPaths, IsAt, Find, Expanded, PathExpanded;
    LacksIs(e.workspaces, id);
    if HasId(e.workspaces, id) {
      var all := PathsOf(e, id) + [Expanded(home, entry)];
      var i := PathsSet(e, id, Retain(all));
      RetainSelects(all);
      ExpandedIs(home, entry);
    }
  }

  lemma RemovePathIs(home: Home, e: State, id: string, index: nat, now: string, refused: Option<Refusal>, after: State)
    requires Answers(home, e, RemovePath(id, index), now, refused, after)
    ensures PathRemoved(e, id, index, refused, after)
  {
    hide SetPaths, OnlyAt, OnlyPaths, IsAt, Find;
    LacksIs(e.workspaces, id);
    if HasId(e.workspaces, id) {
      var i := Find(e.workspaces, id);
      var paths := e.workspaces[i].paths;
      if |paths| > 1 && index < |paths| {
        var j := PathsSet(e, id, paths[..index] + paths[index + 1..]);
        assert OneDropped(paths, after.workspaces[i].paths, index);
      }
    }
  }

  lemma UpdatePathIs(home: Home, e: State, id: string, index: nat, entry: WorkspacePath, now: string,
                     refused: Option<Refusal>, after: State)
    requires Answers(home, e, UpdatePath(id, index, entry), now, refused, after)
    ensures PathUpdated(home, e, id, index, entry, refused, after)
  {
    hide Retain, Selection, SetPaths, OnlyAt, OnlyPaths, IsAt, Find, Expanded, PathExpanded;
    LacksIs(e.workspaces, id);
    if HasId(e.workspaces, id) {
      var i := Find(e.workspaces, id);
      var paths := e.workspaces[i].paths;
      if index < |paths| {
        var changed := paths[index := Expanded(home, entry)];
        var j := PathsSet(e, id, Retain(changed));
        RetainSelects(changed);
        ExpandedIs(home, entry);
      }
    }
  }

  lemma {:induction false} WithoutSelects(ws: seq<Workspace>, id: string)
    ensures Selection(ws, Without(ws, id), Other(id))
  {
    if |ws| == 0 {
      SelectionNone(Other(id));
      assert ws == [];
    } else {
      var init, w := ws[..|ws| - 1], ws[|ws| - 1];
      assert ws == init + [w];
      WithoutSelects(init, id);
      SelectionSnoc(init, Without(init, id), Other(id), w);
      assert Without(init, id) + [] == Without(init, id);
    }
  }

  lemma RemoveIs(home: Home, e: State, id: string, now: string, refused: Option<Refusal>, after: State)
    requires Answers(home, e, Remove(id), now, refused, after)
    ensures Removed(e, id, refused, after)
  {
    hide Selection, Without;
    LacksIs(e.workspaces, id);
    WithoutSelects(e.workspaces, id);
  }

  // ---- putting the list in order ----------------------------------------------------------------------

  /** A workspace put in order: its visible paths, or its old single one, or the fallback for the default one. */
  ghost predicate PutInOrder(home: Home, w: Workspace, fallback: string, now: string, v: Workspace) {
    && v == w.(name := if Blank(w.name) then w.id else w.name, paths := v.paths, path := v.path,
               createdAt := if Blank(w.createdAt) then now else w.createdAt)
    && (exists own: seq<WorkspacePath>, single: string ::
          && PathsExpanded(home, w.paths, own) && ExpandsTo(home, w.path, single)
          && v.paths == if own != [] then own
                        else if !Blank(w.path) then
                          [WorkspacePath(single, w.permission, Some("Primary workspace directory"))]
                        else if w.id == "default" then
                          [WorkspacePath(fallback, ReadWrite, Some("Default working directory"))]
                        else [])
    && v.path == if v.paths != [] then v.paths[0].path else w.path
  }

  /** Position `i` holds the first entry of its id, which is not blank. */
  ghost predicate FirstOfId(ws: seq<Workspace>, i: nat) {
    i < |ws| && !Blank(ws[i].id) && forall j :: 0 <= j < i ==> ws[j].id != ws[i].id
  }

  /** The entries at `at` put in order; without the default workspace among them, it comes last. */
  ghost predicate ListInOrder(home: Home, ws: seq<Workspace>, fallback: string, now: string, r: seq<Workspace>,
                              at: seq<nat>) {
    && (forall k, n :: 0 <= k < n < |at| ==> at[k] < at[n])
    && (forall i: nat :: i in at <==> FirstOfId(ws, i))
    && |at| <= |r|
    && (forall k :: 0 <= k < |at| ==> at[k] < |ws| && PutInOrder(home, ws[at[k]], fallback, now, r[k]))
    && if HasId(ws, "default") then |r| == |at|
       else |r| == |at| + 1 && r[|at|] == Workspace("default", "Default Workspace",
              [WorkspacePath(fallback, ReadWrite, Some("Default working directory"))], fallback,
              Some("Default working directory"), ReadWrite, now, Some(now))
  }

  ghost predicate IsFallback(home: Home, workspace: string, fallback: string) {
    if Blank(workspace) then fallback == "~/.osagent/workspace" else ExpandsTo(home, workspace, fallback)
  }

  /** The whole of `ensure_workspace_defaults`: the list, the active id, and the path of the active workspace. */
  ghost predicate Tidied(home: Home, s: State, now: string, e: State) {
    exists fallback: string, at: seq<nat> ::
      && IsFallback(home, s.workspace, fallback)
      && ListInOrder(home, s.workspaces, fallback, now, e.workspaces, at)
      && e.active == Some(if s.active.Some? && !Lacks(e.workspaces, s.active.value) then s.active.value else "default")
      && exists i: nat :: IsAt(e.workspaces, e.active.value, i)
           && var paths := e.workspaces[i].paths;
              e.workspace == if paths != [] then paths[0].path
                             else if !Blank(e.workspaces[i].path) then e.workspaces[i].path else fallback
  }

  lemma OwnPathsAre(home: Home, w: Workspace)
    ensures var m := MigrateOne(home, w);
            OwnPaths(home, m) == if ExpandPaths(home, w.paths) != [] then ExpandPaths(home, w.paths)
                                 else if !Blank(w.path) then [Primary(home, w)] else []
    ensures OwnPaths(home, MigrateOne(home, w)) == [] ==> MigrateOne(home, w).path == w.path
  {
    var m := MigrateOne(home, w);
    var given := if |w.paths| == 0 && w.path != "" then [Primary(home, w)] else w.paths;
    ExpandSettles(home, given);
    ExpandFixed(home, m.paths);
    TildeBlank(home, w.path);
    TildeTwice(home, w.path);
    if |w.paths| == 0 && w.path != "" {
      assert given[1..] == [];
      assert Tilde(home, Primary(home, w).path) == Primary(home, w).path;
    }
  }

  lemma FirstVisible(paths: seq<WorkspacePath>, before: string)
    requires forall k :: 0 <= k < |paths| ==> !Blank(paths[k].path)
    ensures FirstPath(paths, before) == if paths != [] then paths[0].path else before
  {
  }

  lemma CleanedIs(home: Home, w: Workspace, fallback: string, now: string)
    requires !Blank(fallback)
    ensures PutInOrder(home, w, fallback, now, CleanOne(home, MigrateOne(home, w), fallback, now))
  {
    hide ExpandPaths, OwnPaths, PathsExpanded, ExpandsTo, FirstPath, Blank;
    OwnPathsAre(home, w);
    OwnSettled(home, w);
    ExpandSelects(home, w.paths);
    TildeExpands(home, w.path);
    var v := CleanOne(home, MigrateOne(home, w), fallback, now);
    FirstVisible(v.paths, MigrateOne(home, w).path);
    var own, single := ExpandPaths(home, w.paths), Tilde(home, w.path);
    assert PathsExpanded(home, w.paths, own) && ExpandsTo(home, w.path, single);
  }

  /** The cleaning loop keeps the first entries of each id. */
  ghost predicate KeptAt(ws: seq<Workspace>, r: seq<Workspace>, clean: Workspace -> Workspace, at: seq<nat>) {
    && |at| == |r|
    && (forall k, n :: 0 <= k < n < |at| ==> at[k] < at[n])
    && (forall i: nat :: i in at <==> FirstOfId(ws, i))
    && (forall k :: 0 <= k < |at| ==> at[k] < |ws| && r[k] == clean(ws[at[k]]))
  }

  lemma {:induction false} KeepsFirsts(ws: seq<Workspace>, clean: Workspace -> Workspace) returns (at: seq<nat>)
    requires KeepsIds(clean)
    ensures KeptAt(ws, KeepFirst(ws, clean), clean, at)
  {
    if |ws| == 0 {
      at := [];
    } else {
      var init, w := ws[..|ws| - 1], ws[|ws| - 1];
      assert ws == init + [w];
      var before := KeepsFirsts(init, clean);
      KeptEntry(init, w.id, clean);
      KeptNext(init, w, KeepFirst(init, clean), clean, before);
      at := if Blank(w.id) || HasId(init, w.id) then before else before + [|init|];
    }
  }

  lemma KeptNext(init: seq<Workspace>, w: Workspace, r: seq<Workspace>, clean: Workspace -> Workspace, at: seq<nat>)
    requires KeptAt(init, r, clean, at)
    ensures Blank(w.id) || HasId(init, w.id) ==> KeptAt(init + [w], r, clean, at)
    ensures !Blank(w.id) && !HasId(init, w.id) ==> KeptAt(init + [w], r + [clean(w)], clean, at + [|init|])
  {
    var ws := init + [w];
    forall i: nat ensures i < |init| ==> (FirstOfId(ws, i) <==> FirstOfId(init, i)) {
      if i < |init| { assert forall j :: 0 <= j <= i ==> ws[j] == init[j]; }
    }
    assert FirstOfId(ws, |init|) <==> !Blank(w.id) && !HasId(init, w.id) by {
      assert ws[|init|] == w && forall j :: 0 <= j < |init| ==> ws[j] == init[j];
    }
    forall k | 0 <= k < |at| ensures at[k] < |init| { assert at[k] in at; }
    assert forall i: nat :: i in at + [|init|] <==> i in at || i == |init|;
  }

  lemma MigratedFirsts(home: Home, ws: seq<Workspace>, i: nat)
    ensures FirstOfId(MigrateAll(home, ws), i) <==> FirstOfId(ws, i)
  {
    var m := MigrateAll(home, ws);
    assert forall j :: 0 <= j < |ws| ==> m[j].id == ws[j].id;
  }

  lemma OrderedIs(home: Home, s: State, now: string) returns (at: seq<nat>)
    ensures ListInOrder(home, s.workspaces, FallbackPath(home, s), now, Ordered(home, s, now), at)
  {
    hide PutInOrder, CleanOne, MigrateOne, FallbackPath, Blank;
    var ws, fallback := s.workspaces, FallbackPath(home, s);
    var m := MigrateAll(home, ws);
    var clean := Cleaner(home, fallback, now);
    FallbackSettled(home, s);
    assert KeepsIds(clean) by { CleanerKeepsIds(home, fallback, now); }
    at := KeepsFirsts(m, clean);
    var cleaned := CleanAll(home, m, fallback, now);
    forall i: nat ensures i in at <==> FirstOfId(ws, i) { MigratedFirsts(home, ws, i); }
    forall k | 0 <= k < |at| ensures at[k] < |ws| && PutInOrder(home, ws[at[k]], fallback, now, cleaned[k]) {
      CleanedIs(home, ws[at[k]], fallback, now);
    }
    CleanedEntry(home, m, DEFAULT, fallback, now);
    MigrateKeepsIds(home, ws, DEFAULT);
    DefaultVisible();
  }

  lemma CleanerKeepsIds(home: Home, fallback: string, now: string)
    ensures KeepsIds(Cleaner(home, fallback, now))
  {
  }

  lemma DefaultVisible()
    ensures !Blank(DEFAULT)
  {
    assert !IsWhite(DEFAULT[0]);
  }

  /** The first run and every other: what putting the list in order leaves. */
  lemma EnsureTidies(home: Home, s: State, now: string)
    ensures Tidied(home, s, now, Ensure(home, s, now))
  {
    hide ListInOrder, Ordered, Blank;
    var e, fallback := Ensure(home, s, now), FallbackPath(home, s);
    var at := OrderedIs(home, s, now);
    TildeExpands(home, s.workspace);
    assert IsFallback(home, s.workspace, fallback);
    if s.active.Some? { LacksIs(e.workspaces, s.active.value); }
    var id := e.active.value;
    EnsureConsistent(home, s, now);
    LacksIs(e.workspaces, id);
    var i := Find(e.workspaces, id);
    VisiblePaths(home, s, now, i);
    FirstVisible(e.workspaces[i].paths, e.workspaces[i].path);
  }

  lemma CleanPathsVisible(home: Home, w: Workspace, fallback: string, now: string)
    requires !Blank(fallback)
    ensures var v := CleanOne(home, MigrateOne(home, w), fallback, now);
            forall k :: 0 <= k < |v.paths| ==> !Blank(v.paths[k].path)
  {
    hide OwnPaths, FirstPath, Blank;
    OwnSettled(home, w);
  }

  /** The paths of an ordered list are all visible. */
  lemma VisiblePaths(home: Home, s: State, now: string, i: nat)
    requires i < |Ordered(home, s, now)|
    ensures forall k :: 0 <= k < |Ordered(home, s, now)[i].paths| ==> !Blank(Ordered(home, s, now)[i].paths[k].path)
  {
    hide Blank, CleanOne, MigrateOne, Ordered, FallbackPath;
    var ws := Ensure(home, s, now).workspaces;
    var id := ws[i].id;
    EnsureConsistent(home, s, now);
    EnsuredEntry(home, s, now, id);
    FallbackSettled(home, s);
    if !Blank(id) && HasId(s.workspaces, id) {
      CleanPathsVisible(home, s.workspaces[Find(s.workspaces, id)], FallbackPath(home, s), now);
    }
  }
}
