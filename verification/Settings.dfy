// The settings transaction of pkg/dashboard/control_settings.go: validate, back up, write,
// read back, clear the cache, and roll back when a step fails. Any read or write may fail,
// and a failing or even a succeeding write of the active file may leave other text behind.
module Settings {
  import opened Wrappers
  import opened Yaml

  // What the surrounding code computes from texts; all of it only reads.
  datatype Env = Env(
    document: string -> Option<Tree>,               // yaml.Unmarshal
    render: Tree -> string,                         // yaml.Marshal
    settings: string -> Option<map<string, Tree>>,  // settingsFromDocument
    split: string -> Path,                          // strings.Split(key, ".")
    revision: string -> string,                     // configRevision
    validName: string -> bool,                      // validBackupName
    accepts: (map<string, Tree>, map<string, Tree>) -> bool, // locks, validation, source combination
    sources: set<string>)                           // keys whose change invalidates search results

  datatype Request = Request(changes: map<string, Tree>, restore: string, revision: string, confirm: bool)

  datatype WriteOutcome = WriteOutcome(ok: bool, left: string)

  // The outcome of every I/O operation of one call, in program order.
  datatype Faults = Faults(
    read: bool, backupRead: bool, mkdir: bool, backupWrite: bool, stat: bool, reread: bool,
    write: WriteOutcome, readback: bool, clear: bool, rollbackWrite: WriteOutcome, rollbackRead: bool)

  datatype Error =
    | NoChanges | Exclusive | Unreadable | Conflict | RevisionRequired | InvalidDocument
    | BadBackup | Rejected | NotAMapping | BackupFailed | WriteFailed | ReadbackMismatch | ClearFailed
    | RollbackFailed(cause: Error)

  datatype Result = Result(applied: bool, backup: string, error: Option<Error>)

  const PREVIEW := Result(false, "", None)

  function Fail(e: Error): Result { Result(false, "", Some(e)) }

  // settingsDifference: what `after` sets differently.
  function Difference(before: map<string, Tree>, after: map<string, Tree>): map<string, Tree> {
    map p | p in after && !(p in before && before[p] == after[p]) :: after[p]
  }

  // Applying a difference reaches the target on all its settings, and says nothing superfluous.
  lemma DifferenceReaches(before: map<string, Tree>, after: map<string, Tree>)
    ensures forall p :: p in after ==> (before + Difference(before, after))[p] == after[p]
    ensures forall p :: p in before && p !in after ==> (before + Difference(before, after))[p] == before[p]
    ensures forall p :: p in Difference(before, after) ==> p in after && (p in before ==> before[p] != after[p])
    ensures Difference(before, after) == map[] <==> forall p :: p in after ==> p in before && before[p] == after[p]
  {
    if forall p :: p in after ==> p in before && before[p] == after[p] {
      assert Difference(before, after).Keys == {};
    } else {
      var p :| p in after && !(p in before && before[p] == after[p]);
      assert p in Difference(before, after);
    }
  }

  // `order` lists the changes once each, in the order a map iteration visited them.
  ghost predicate Lists(e: Env, order: seq<Change>, keys: seq<string>, changes: map<string, Tree>) {
    && |order| == |keys|
    && (forall i :: 0 <= i < |keys| ==> keys[i] in changes && order[i] == Change(e.split(keys[i]), changes[keys[i]]))
    && (forall i, j :: 0 <= i < j < |keys| ==> keys[i] != keys[j])
  }

  ghost predicate ListsAll(e: Env, order: seq<Change>, changes: map<string, Tree>) {
    exists keys :: Lists(e, order, keys, changes) && forall p :: p in changes ==> p in keys
  }

  // The active text's replacement, for some iteration order.
  ghost predicate IsNext(e: Env, old_: string, changes: map<string, Tree>, next: string) {
    exists order :: ListsAll(e, order, changes) && e.document(old_).Some?
      && SetAll(e.document(old_).value, order).Some? && next == e.render(SetAll(e.document(old_).value, order).value)
  }

  lemma ListsSnoc(e: Env, order: seq<Change>, keys: seq<string>, changes: map<string, Tree>, key: string)
    requires Lists(e, order, keys, changes) && key in changes && key !in keys
    ensures Lists(e, order + [Change(e.split(key), changes[key])], keys + [key], changes)
  {
  }

  lemma SetAllSnoc(t: Tree, order: seq<Change>, c: Change)
    requires SetAll(t, order).Some?
    ensures SetAll(t, order + [c]) == Set(SetAll(t, order).value, c.path, c.value)
  {
    assert (order + [c])[..|order|] == order;
  }

  // Some of the changes, set in some order, run into a node that is not a mapping.
  ghost predicate Obstructed(e: Env, t: Tree, changes: map<string, Tree>) {
    exists order, keys :: Lists(e, order, keys, changes) && SetAll(t, order).None?
  }

  // No changed path contains another.
  ghost predicate IndependentKeys(e: Env, changes: map<string, Tree>) {
    forall p, q :: p in changes && q in changes && p != q ==> !Comparable(e.split(p), e.split(q))
  }

  // The text parses, and no changed path leads through anything but mappings.
  ghost predicate Rewritable(e: Env, text: string, changes: map<string, Tree>) {
    e.document(text).Some? && forall p :: p in changes ==> Settable(e.document(text).value, e.split(p))
  }

  lemma ListsIndependent(e: Env, order: seq<Change>, keys: seq<string>, changes: map<string, Tree>)
    requires Lists(e, order, keys, changes) && IndependentKeys(e, changes)
    ensures Independent(order)
    ensures forall c :: c in order ==> exists p :: p in changes && c.path == e.split(p)
  {
    forall i, j | 0 <= i < j < |order| ensures !Comparable(order[i].path, order[j].path) {
      assert keys[i] in changes && keys[j] in changes && keys[i] != keys[j];
    }
    forall c | c in order ensures exists p :: p in changes && c.path == e.split(p) {
      var i :| 0 <= i < |order| && order[i] == c;
      assert keys[i] in changes;
    }
  }

  lemma NextIsRewritable(e: Env, text: string, changes: map<string, Tree>, next: string)
    requires IndependentKeys(e, changes) && IsNext(e, text, changes, next)
    ensures Rewritable(e, text, changes)
  {
    var t := e.document(text).value;
    var order :| ListsAll(e, order, changes) && SetAll(t, order).Some? && next == e.render(SetAll(t, order).value);
    var keys :| Lists(e, order, keys, changes) && forall p :: p in changes ==> p in keys;
    ListsIndependent(e, order, keys, changes);
    SetAllReads(t, order);
    forall p | p in changes ensures Settable(t, e.split(p)) {
      var i :| 0 <= i < |keys| && keys[i] == p;
      assert order[i] in order;
    }
  }

  // With independent keys the iteration order does not decide whether the changes apply.
  lemma RewritableIff(e: Env, text: string, changes: map<string, Tree>)
    requires IndependentKeys(e, changes)
    ensures Rewritable(e, text, changes) ==> !Obstructed(e, e.document(text).value, changes)
    ensures forall next :: IsNext(e, text, changes, next) ==> Rewritable(e, text, changes)
  {
    if Rewritable(e, text, changes) && Obstructed(e, e.document(text).value, changes) {
      var order, keys :| Lists(e, order, keys, changes) && SetAll(e.document(text).value, order).None?;
      ListsIndependent(e, order, keys, changes);
      SetAllReads(e.document(text).value, order);
    }
    forall next | IsNext(e, text, changes, next) ensures Rewritable(e, text, changes) {
      NextIsRewritable(e, text, changes, next);
    }
  }

  // The changes loop over the parsed document, in random key order.
  method Rewrite(e: Env, text: string, changes: map<string, Tree>) returns (next: Option<string>)
    ensures next.Some? ==> IsNext(e, text, changes, next.value)
    ensures next.None? ==> e.document(text).None? || Obstructed(e, e.document(text).value, changes)
    ensures IndependentKeys(e, changes) ==> (next.Some? <==> Rewritable(e, text, changes))
  {
    if IndependentKeys(e, changes) { RewritableIff(e, text, changes); }
    var doc := e.document(text);
    if doc.None? {
      return None;
    }
    var t := doc.value;
    var todo := changes.Keys;
    ghost var order: seq<Change>, keys: seq<string> := [], [];
    while todo != {}
      invariant todo <= changes.Keys && Lists(e, order, keys, changes)
      invariant forall p :: p in changes <==> p in todo || p in keys
      invariant forall p :: p in todo ==> p !in keys
      invariant SetAll(doc.value, order) == Some(t)
      decreases |todo|
    {
      var key :| key in todo;
      todo := todo - {key};
      var r := Set(t, e.split(key), changes[key]);
      ghost var c := Change(e.split(key), changes[key]);
      ListsSnoc(e, order, keys, changes, key);
      SetAllSnoc(doc.value, order, c);
      if r.None? {
        return None;
      }
      t := r.value;
      order, keys := order + [c], keys + [key];
    }
    assert ListsAll(e, order, changes);
    next := Some(e.render(t));
  }

  // No operation from the backup to the clearing of the cache fails.
  predicate Succeeds(e: Env, changes: map<string, Tree>, next: string, clearCache: bool, f: Faults) {
    && f.mkdir && f.backupWrite && f.stat && f.reread && f.write == WriteOutcome(true, next) && f.readback
    && e.settings(next).Some? && (clearCache && changes.Keys * e.sources != {} ==> f.clear)
  }

  class ConfigFiles {
    var active: string
    var backups: map<string, string>
    var cacheClears: nat

    constructor (active: string)
      ensures this.active == active && backups == map[] && cacheClears == 0
    {
      this.active, backups, cacheClears := active, map[], 0;
    }

    // rollback: write the old text again and verify it.
    method Rollback(b: string, cause: Error, f: Faults) returns (r: Result)
      modifies this`active
      ensures !r.applied && (r.error == Some(cause) || r.error == Some(RollbackFailed(cause)))
      ensures r.error == Some(cause) <==> f.rollbackWrite.ok && f.rollbackRead && f.rollbackWrite.left == b
      ensures active == f.rollbackWrite.left
    {
      active := f.rollbackWrite.left;
      if !f.rollbackWrite.ok || !f.rollbackRead || active != b {
        return Fail(RollbackFailed(cause));
      }
      r := Fail(cause);
    }

    // From the decision to write until the result.
    method Commit(e: Env, changes: map<string, Tree>, b: string, next: string, name: string, clearCache: bool,
          f: Faults)
        returns (r: Result)
      requires b == active
      modifies this
      ensures backups == old(backups) || backups == old(backups)[name := b]
      ensures r.applied <==> Succeeds(e, changes, next, clearCache, f)
      ensures r.applied ==> r.error == None && active == next && r.backup == name && backups == old(backups)[name := b]
      ensures !r.applied ==> r.error.Some? && (active == b || r.error.value.RollbackFailed?)
      ensures r.error.Some? && r.error.value.RollbackFailed? ==> name in backups && backups[name] == b
      ensures cacheClears == old(cacheClears) +
        if r.applied && clearCache && changes.Keys * e.sources != {} then 1 else 0
    {
      if !f.mkdir || !f.backupWrite {
        return Fail(BackupFailed);
      }
      backups := backups[name := b];
      if !f.stat {
        return Fail(Unreadable);
      }
      if !f.reread || active != b {
        return Fail(Conflict);
      }
      active := f.write.left;
      if !f.write.ok {
        r := Rollback(b, WriteFailed, f);
        return;
      }
      if !f.readback || active != next {
        r := Rollback(b, ReadbackMismatch, f);
        return;
      }
      if e.settings(active).None? {
        r := Rollback(b, InvalidDocument, f);
        return;
      }
      if clearCache && changes.Keys * e.sources != {} {
        if !f.clear {
          r := Rollback(b, ClearFailed, f);
          return;
        }
        cacheClears := cacheClears + 1;
      }
      r := Result(true, name, None);
    }

    // What a request asks for, once it is known to be well-formed.
    ghost function Wanted(e: Env, req: Request): map<string, Tree>
      reads this
    {
      if req.restore == "" || req.restore !in backups then req.changes
      else match (e.settings(active), e.settings(backups[req.restore]))
        case (Some(now), Some(before)) => Difference(now, before)
        case _ => req.changes
    }

    // Everything that is asked of a request and its reads before a confirmed one writes.
    ghost predicate Admissible(e: Env, req: Request, f: Faults)
      reads this
    {
      && ((req.changes != map[]) != (req.restore != "")) && f.read
      && (req.revision == e.revision(active) || (req.revision == "" && !req.confirm))
      && (req.confirm ==> req.revision != "")
      && e.settings(active).Some?
      && (req.restore != "" ==>
            && e.validName(req.restore) && req.restore in backups && f.backupRead
            && e.settings(backups[req.restore]).Some?)
      && e.accepts(e.settings(active).value, Wanted(e, req))
    }

    // The checks that precede a write: the text read, the changes it asks for, or the error.
    method Check(e: Env, req: Request, f: Faults) returns (error: Option<Error>, wanted: map<string, Tree>)
      ensures error.None? <==> Admissible(e, req, f)
      ensures error.None? ==> wanted == Wanted(e, req)
      ensures error.None? && req.restore == "" ==> wanted == req.changes
      ensures error.None? && req.restore != "" ==>
        var (now, target) := (e.settings(active).value, e.settings(backups[req.restore]).value);
        && (forall p :: p in wanted <==> p in target && !(p in now && now[p] == target[p]))
        && (forall p :: p in wanted ==> wanted[p] == target[p])
      ensures error.Some? ==> !error.value.RollbackFailed?
    {
      wanted := req.changes;
      if req.changes == map[] && req.restore == "" {
        return Some(NoChanges), wanted;
      }
      if req.changes != map[] && req.restore != "" {
        return Some(Exclusive), wanted;
      }
      if !f.read {
        return Some(Unreadable), wanted;
      }
      if req.revision != "" && req.revision != e.revision(active) {
        return Some(Conflict), wanted;
      }
      if req.confirm && req.revision == "" {
        return Some(RevisionRequired), wanted;
      }
      var values := e.settings(active);
      if values.None? {
        return Some(InvalidDocument), wanted;
      }
      if req.restore != "" {
        if !e.validName(req.restore) || req.restore !in backups || !f.backupRead {
          return Some(BadBackup), wanted;
        }
        var oldValues := e.settings(backups[req.restore]);
        if oldValues.None? {
          return Some(InvalidDocument), wanted;
        }
        wanted := Difference(values.value, oldValues.value);
      }
      error := if e.accepts(values.value, wanted) then None else Some(Rejected);
    }

    // applySettingsFile. `name` is the time-stamped backup name, clearCache whether a cache is
    // given; next is the text to be written, if the request gets that far.
    method ApplySettingsFile(e: Env, req: Request, name: string, clearCache: bool, f: Faults)
        returns (r: Result, ghost next: Option<string>)
      modifies this
      // A request is applied exactly when it is admissible, confirmed and rewritable and no fault occurs.
      ensures r.applied <==>
        && old(Admissible(e, req, f)) && req.confirm && next.Some?
        && Succeeds(e, old(Wanted(e, req)), next.value, clearCache, f)
      ensures next.Some? ==> IsNext(e, old(active), old(Wanted(e, req)), next.value)
      ensures old(Admissible(e, req, f)) && req.confirm && IndependentKeys(e, old(Wanted(e, req))) ==>
        (next.Some? <==> Rewritable(e, old(active), old(Wanted(e, req))))
      ensures old(Admissible(e, req, f)) && req.confirm && next.None? ==>
        e.document(old(active)).None? || Obstructed(e, e.document(old(active)).value, old(Wanted(e, req)))
      // What is written are the changes, or those that reach the settings of the backup to restore.
      ensures r.applied && req.restore == "" ==> IsNext(e, old(active), req.changes, active)
      ensures r.applied && req.restore != "" ==>
        && req.restore in old(backups) && e.settings(old(active)).Some? && e.settings(old(backups)[req.restore]).Some?
        && var (now, target) := (e.settings(old(active)).value, e.settings(old(backups)[req.restore]).value);
           IsNext(e, old(active), map p | p in target && !(p in now && now[p] == target[p]) :: target[p], active)
      // Applied: the file is the rewritten text, the backup the old one.
      ensures r.applied ==> r.error == None && Some(active) == next && e.settings(active).Some?
      ensures r.applied ==> r.backup == name && backups == old(backups)[name := old(active)]
      // Anything else: the file is the old text, unless the error says that the rollback failed;
      // then the backup holds the old text.
      ensures !r.applied ==> active == old(active) || (r.error.Some? && r.error.value.RollbackFailed?)
      ensures r.error.Some? && r.error.value.RollbackFailed? ==> name in backups && backups[name] == old(active)
      // A preview is an admissible request that is not confirmed; it touches nothing.
      ensures r.error == None && !r.applied <==> old(Admissible(e, req, f)) && !req.confirm
      ensures r.error == None && !r.applied ==> active == old(active) && backups == old(backups)
      // The search cache is cleared exactly when an applied change concerns a source.
      ensures cacheClears == old(cacheClears) +
        if r.applied && clearCache && old(Wanted(e, req)).Keys * e.sources != {} then 1 else 0
    {
      next := None;
      var error, wanted := Check(e, req, f);
      if error.Some? {
        return Fail(error.value), next;
      }
      if !req.confirm {
        return PREVIEW, next;
      }
      var text := Rewrite(e, active, wanted);
      next := text;
      if text.None? {
        return Fail(NotAMapping), next;
      }
      r := Commit(e, wanted, active, text.value, name, clearCache, f);
    }
  }

  // ---- What an applied request reads as ----

  // When parsing undoes rendering and no changed path contains another, the applied file
  // reads the new value at every changed path and the old one at every unrelated path,
  // whichever order the map was iterated in.
  lemma AppliedReads(e: Env, before: string, changes: map<string, Tree>, after: string)
    requires IsNext(e, before, changes, after) && IndependentKeys(e, changes)
    requires forall t :: e.document(e.render(t)) == Some(t)
    ensures e.document(before).Some? && e.document(after).Some?
    ensures var (t, t') := (e.document(before).value, e.document(after).value);
      && (forall p, ext :: p in changes ==> Get(t', e.split(p) + ext) == Get(changes[p], ext))
      && (forall q: Path :: (forall p :: p in changes ==> !Comparable(e.split(p), q)) ==> Get(t', q) == Get(t, q))
  {
    var order :| ListsAll(e, order, changes) && SetAll(e.document(before).value, order).Some?
      && after == e.render(SetAll(e.document(before).value, order).value);
    var keys :| Lists(e, order, keys, changes) && forall p :: p in changes ==> p in keys;
    var (t, t') := (e.document(before).value, SetAll(e.document(before).value, order).value);
    SetAllReads(t, order);
    forall p, ext | p in changes ensures Get(t', e.split(p) + ext) == Get(changes[p], ext) {
      var i :| 0 <= i < |keys| && keys[i] == p;
      assert order[i] in order;
    }
    forall q: Path | forall p :: p in changes ==> !Comparable(e.split(p), q) ensures Get(t', q) == Get(t, q) {
      forall c: Change | c in order ensures !Comparable(c.path, q) {
        var i :| 0 <= i < |order| && order[i] == c;
        assert keys[i] in changes;
      }
    }
  }
}
