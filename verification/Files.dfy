/** The file service's two stores: objects in a bucket and rows in a table, changed by uploads that
    put and then insert and by deletes that remove and then erase, with crashes between any two
    calls and replies that get lost. */
module Files {
  import opened Common
  import K = ObjectKeys
  import P = StoredPaths

  datatype Identity = Identity(user: string, tenant: string)

  /** A file's row, and the path at which the object store finds its key. */
  datatype File = File(owner: string, tenant: string, key: string, path: Option<string>)

  predicate Located(f: File) { f.path == P.StoredPath(f.key) }

  /** canAccess, as the handlers decide. */
  predicate CanAccess(who: Identity, f: File) {
    if who.user != f.owner then false
    else if who.tenant != "" && f.tenant != "" && who.tenant != f.tenant then false
    else true
  }

  /** The WHERE clause of DELETE and, without the id, of the listing. */
  predicate Matches(f: File, owner: string, tenant: string) {
    f.owner == owner && (tenant == "" || f.tenant == "" || f.tenant == tenant)
  }

  datatype UploadStatus = Created | UploadFailed

  datatype UploadStep = Putting | Inserting | Uploaded(status: UploadStatus) | UploadCrashed

  datatype Upload = Upload(file: File, pc: UploadStep)

  datatype DeleteStatus = Gone | NotFound | Forbidden | DeleteFailed

  datatype DeleteStep = Looking | Removing(file: File) | Erasing(file: File) | Answered(status: DeleteStatus) | DeleteCrashed

  datatype Delete = Delete(id: string, who: Identity, pc: DeleteStep)

  /** objects: the paths of the objects there are. uploads is indexed by the file id drawn. inserted:
      ids whose row was ever there; removed: for every id whose object was removed, the delete that
      removed it last. */
  datatype State = State(objects: set<string>, rows: map<string, File>, uploads: map<string, Upload>,
                         deletes: map<nat, Delete>, inserted: set<string>, removed: map<string, nat>)

  datatype Action =
    | StartUpload(id: string, file: File)
    | Put(id: string, fate: Fate)
    | Insert(id: string, fate: Fate)
    | CrashUpload(id: string)
    | StartDelete(d: nat, id: string, who: Identity)
    | Look(d: nat, fate: Fate)
    | Remove(d: nat, fate: Fate)
    | Erase(d: nat, fate: Fate)
    | CrashDelete(d: nat)

  /** File ids are drawn at random and new. A key that makes no URL fails before anything is sent. */
  predicate Enabled(s: State, a: Action) {
    match a
    case StartUpload(id, file) => id !in s.uploads && Located(file)
    case Put(id, fate) =>
      id in s.uploads && s.uploads[id].pc.Putting? && (s.uploads[id].file.path.None? ==> fate.FailsBefore?)
    case Insert(id, _) => id in s.uploads && s.uploads[id].pc.Inserting?
    case CrashUpload(id) => id in s.uploads && !s.uploads[id].pc.Uploaded?
    case StartDelete(d, _, _) => d !in s.deletes
    case Look(d, _) => d in s.deletes && s.deletes[d].pc.Looking?
    case Remove(d, fate) =>
      d in s.deletes && s.deletes[d].pc.Removing? && (s.deletes[d].pc.file.path.None? ==> fate.FailsBefore?)
    case Erase(d, _) => d in s.deletes && s.deletes[d].pc.Erasing?
    case CrashDelete(d) => d in s.deletes && !s.deletes[d].pc.Answered?
  }

  /** The object of the file is there; or that of another file at the same path. */
  predicate There(s: State, f: File) { f.path.Some? && f.path.value in s.objects }

  /** The unique index on keys. */
  predicate KeyTaken(rows: map<string, File>, key: string) { exists id :: id in rows && rows[id].key == key }

  function Uploading(s: State, id: string, pc: UploadStep): (s': State)
    requires id in s.uploads
  {
    s.(uploads := s.uploads[id := s.uploads[id].(pc := pc)])
  }

  function Deleting(s: State, d: nat, pc: DeleteStep): (s': State)
    requires d in s.deletes
  {
    s.(deletes := s.deletes[d := s.deletes[d].(pc := pc)])
  }

  /** The lookup: what the handler knows after it. */
  function Looked(s: State, del: Delete, fate: Fate): (pc: DeleteStep) {
    if !fate.Succeeds? then Answered(DeleteFailed)
    else if del.id !in s.rows then Answered(NotFound)
    else if !CanAccess(del.who, s.rows[del.id]) then Answered(Forbidden)
    else Removing(s.rows[del.id])
  }

  predicate Hits(s: State, del: Delete) {
    del.id in s.rows && Matches(s.rows[del.id], del.who.user, del.who.tenant)
  }

  function Apply(s: State, a: Action): (s': State)
    requires Enabled(s, a)
  {
    match a
    case StartUpload(id, file) => s.(uploads := s.uploads[id := Upload(file, Putting)])
    case Put(id, fate) =>
      var s1 := if fate.FailsBefore? then s else s.(objects := s.objects + {s.uploads[id].file.path.value});
      Uploading(s1, id, if fate.Succeeds? then Inserting else Uploaded(UploadFailed))
    case Insert(id, fate) =>
      var refused := KeyTaken(s.rows, s.uploads[id].file.key);
      var s1 := if fate.FailsBefore? || refused then s
                else s.(rows := s.rows[id := s.uploads[id].file], inserted := s.inserted + {id});
      Uploading(s1, id, Uploaded(if fate.Succeeds? && !refused then Created else UploadFailed))
    case CrashUpload(id) => Uploading(s, id, UploadCrashed)
    case StartDelete(d, id, who) => s.(deletes := s.deletes[d := Delete(id, who, Looking)])
    case Look(d, fate) => Deleting(s, d, Looked(s, s.deletes[d], fate))
    case Remove(d, fate) =>
      var del := s.deletes[d];
      var s1 := if fate.FailsBefore? then s
                else s.(objects := s.objects - {del.pc.file.path.value}, removed := s.removed[del.id := d]);
      Deleting(s1, d, if fate.Succeeds? then Erasing(del.pc.file) else Answered(DeleteFailed))
    case Erase(d, fate) =>
      var del := s.deletes[d];
      var s1 := if !fate.FailsBefore? && Hits(s, del) then s.(rows := s.rows - {del.id}) else s;
      Deleting(s1, d, Answered(if !fate.Succeeds? then DeleteFailed else if Hits(s, del) then Gone else NotFound))
    case CrashDelete(d) => Deleting(s, d, DeleteCrashed)
  }

  predicate Legal(s: State, run: seq<Action>)
    decreases |run|
  {
    run == [] || (Enabled(s, run[0]) && Legal(Apply(s, run[0]), run[1..]))
  }

  function Run(s: State, run: seq<Action>): (s': State)
    requires Legal(s, run)
    decreases |run|
  {
    if run == [] then s else Run(Apply(s, run[0]), run[1..])
  }

  const EMPTY := State({}, map[], map[], map[], {}, map[])

  /** The handlers' check and the statement's condition agree on every identity and row. */
  lemma CheckAgreesWithQuery(who: Identity, f: File)
    ensures CanAccess(who, f) <==> Matches(f, who.user, who.tenant)
  {}

  /** A delete, of someone allowed to delete the file, that is past its removal. That it removed the
      object is what removed records. */
  predicate GotThrough(del: Delete, id: string, f: File) {
    && del.id == id && !del.pc.Looking? && !del.pc.Removing?
    && del.who.user == f.owner && (del.who.tenant == "" || f.tenant == "" || del.who.tenant == f.tenant)
  }

  /** An upload's row is there, as uploaded, from its insert until an erasure, which comes after a
      removal by someone allowed to. */
  predicate UploadOk(s: State, id: string)
    requires id in s.uploads
  {
    var u := s.uploads[id];
    && Located(u.file)
    && (u.pc.Putting? || u.pc.Inserting? ==> id !in s.inserted)
    && (u.pc.Inserting? || id in s.inserted ==> u.file.path.Some?)
    && (u.pc == Uploaded(Created) ==> id in s.inserted)
    && (id in s.rows ==> id in s.inserted && s.rows[id] == u.file)
    && (id in s.inserted && id !in s.rows ==> id in s.removed)
    && (id in s.removed ==>
          id in s.inserted && s.removed[id] in s.deletes && GotThrough(s.deletes[s.removed[id]], id, u.file))
  }

  predicate DeleteOk(s: State, d: nat)
    requires d in s.deletes
  {
    var del := s.deletes[d];
    && (del.pc.Removing? || del.pc.Erasing? ==>
          && del.id in s.inserted && del.id in s.uploads
          && del.pc.file == s.uploads[del.id].file && CanAccess(del.who, del.pc.file))
    && (del.pc.Erasing? || del.pc == Answered(Gone) ==> del.id in s.removed)
    && (del.pc == Answered(Gone) ==> del.id !in s.rows)
  }

  predicate Indexed(s: State) {
    s.rows.Keys <= s.uploads.Keys && s.inserted <= s.uploads.Keys && s.removed.Keys <= s.uploads.Keys
  }

  /** What rows, uploads and deletes keep, wherever objects are stored. */
  predicate Inv(s: State) {
    && Indexed(s)
    && (forall id :: id in s.uploads ==> UploadOk(s, id))
    && (forall d :: d in s.deletes ==> DeleteOk(s, d))
  }

  predicate IsUploadStep(a: Action) { a.StartUpload? || a.Put? || a.Insert? || a.CrashUpload? }

  predicate IsCall(a: Action) { a.Look? || a.Remove? || a.Erase? || a.CrashDelete? }

  lemma UploadAfterUploadStep(s: State, a: Action, id: string)
    requires Enabled(s, a) && IsUploadStep(a) && id in s.uploads && UploadOk(s, id)
    ensures UploadOk(Apply(s, a), id)
  {}

  lemma UploadAfterDeleteStep(s: State, a: Action, id: string)
    requires Enabled(s, a) && IsCall(a) && id in s.uploads && UploadOk(s, id) && DeleteOk(s, a.d)
    ensures UploadOk(Apply(s, a), id)
  {}

  lemma UploadBegins(s: State, a: Action)
    requires Inv(s) && Enabled(s, a) && a.StartUpload?
    ensures UploadOk(Apply(s, a), a.id)
  {}

  lemma OwnDeleteStaysOk(s: State, a: Action)
    requires Enabled(s, a) && IsCall(a) && DeleteOk(s, a.d)
    requires s.rows.Keys <= s.uploads.Keys && s.inserted <= s.uploads.Keys
    requires s.deletes[a.d].id in s.uploads ==> UploadOk(s, s.deletes[a.d].id)
    ensures DeleteOk(Apply(s, a), a.d)
  {}

  lemma OtherDeleteStaysOk(s: State, a: Action, d: nat)
    requires Enabled(s, a) && d in s.deletes && DeleteOk(s, d) && !a.StartDelete? && (IsCall(a) ==> d != a.d)
    requires s.inserted <= s.uploads.Keys
    requires s.deletes[d].id in s.uploads ==> UploadOk(s, s.deletes[d].id)
    requires IsCall(a) ==> DeleteOk(s, a.d)
    ensures DeleteOk(Apply(s, a), d)
  {}

  lemma DeleteBegins(s: State, a: Action, d: nat)
    requires Inv(s) && Enabled(s, a) && a.StartDelete? && d in Apply(s, a).deletes
    ensures DeleteOk(Apply(s, a), d)
  {}

  lemma UploadsStayOk(s: State, a: Action)
    requires Inv(s) && Enabled(s, a)
    ensures forall id :: id in Apply(s, a).uploads ==> UploadOk(Apply(s, a), id)
  {
    forall id | id in Apply(s, a).uploads ensures UploadOk(Apply(s, a), id) {
      if id !in s.uploads {
        UploadBegins(s, a);
      } else if IsUploadStep(a) {
        UploadAfterUploadStep(s, a, id);
      } else if IsCall(a) {
        UploadAfterDeleteStep(s, a, id);
      } else {
        assert UploadOk(s, id);
      }
    }
  }

  lemma DeletesStayOk(s: State, a: Action)
    requires Inv(s) && Enabled(s, a)
    ensures forall d :: d in Apply(s, a).deletes ==> DeleteOk(Apply(s, a), d)
  {
    forall d | d in Apply(s, a).deletes ensures DeleteOk(Apply(s, a), d) {
      if a.StartDelete? {
        DeleteBegins(s, a, d);
      } else if IsCall(a) && d == a.d {
        OwnDeleteStaysOk(s, a);
      } else {
        OtherDeleteStaysOk(s, a, d);
      }
    }
  }

  lemma StaysIndexed(s: State, a: Action)
    requires Enabled(s, a) && Indexed(s) && (a.Remove? ==> DeleteOk(s, a.d))
    ensures Indexed(Apply(s, a))
  {}

  lemma StepKeepsInv(s: State, a: Action)
    requires Inv(s) && Enabled(s, a)
    ensures Inv(Apply(s, a))
  {
    UploadsStayOk(s, a);
    DeletesStayOk(s, a);
    StaysIndexed(s, a);
  }

  lemma {:induction false} RunKeepsInv(s: State, run: seq<Action>)
    requires Inv(s) && Legal(s, run)
    ensures Inv(Run(s, run))
    decreases |run|
  {
    if run != [] {
      StepKeepsInv(s, run[0]);
      RunKeepsInv(Apply(s, run[0]), run[1..]);
    }
  }

  // Objects. Their story holds as long as no two files are stored at one path.

  /** An upload that begins is stored where no other is. */
  predicate NewPath(s: State, a: Action) {
    a.StartUpload? && a.file.path.Some? ==> forall id :: id in s.uploads ==> s.uploads[id].file.path != a.file.path
  }

  predicate FreshRun(s: State, run: seq<Action>)
    requires Legal(s, run)
    decreases |run|
  {
    run == [] || (NewPath(s, run[0]) && FreshRun(Apply(s, run[0]), run[1..]))
  }

  predicate OnePath(f1: File, f2: File) { f1.path.Some? && f1.path == f2.path }

  predicate PathsDiffer(s: State) {
    forall a, b :: a in s.uploads && b in s.uploads && OnePath(s.uploads[a].file, s.uploads[b].file) ==> a == b
  }

  /** An upload's object is there from its put until a removal. */
  predicate UploadStored(s: State, id: string)
    requires id in s.uploads
  {
    var u := s.uploads[id];
    && (u.pc.Putting? ==> !There(s, u.file))
    && (u.pc.Inserting? || id in s.inserted ==> (There(s, u.file) <==> id !in s.removed))
  }

  predicate ObjectsInv(s: State) {
    forall path :: path in s.objects ==> exists id :: id in s.uploads && s.uploads[id].file.path == Some(path)
  }

  predicate StoreInv(s: State) {
    PathsDiffer(s) && ObjectsInv(s) && forall id :: id in s.uploads ==> UploadStored(s, id)
  }

  lemma ObjectsStayBacked(s: State, a: Action)
    requires ObjectsInv(s) && Enabled(s, a)
    ensures ObjectsInv(Apply(s, a))
  {
    var s' := Apply(s, a);
    forall path | path in s'.objects
      ensures exists id :: id in s'.uploads && s'.uploads[id].file.path == Some(path)
    {
      if path in s.objects {
        var id :| id in s.uploads && s.uploads[id].file.path == Some(path);
        assert id in s'.uploads && s'.uploads[id].file.path == Some(path);
      } else {
        assert a.Put? && s'.uploads[a.id].file.path == Some(path);
      }
    }
  }

  lemma StoredAfterUploadStep(s: State, a: Action, id: string)
    requires Enabled(s, a) && IsUploadStep(a) && PathsDiffer(s) && id in s.uploads && UploadOk(s, id) && UploadStored(s, id)
    requires a.Put? ==> UploadOk(s, a.id)
    ensures UploadStored(Apply(s, a), id)
  {}

  lemma StoredAfterDeleteStep(s: State, a: Action, id: string)
    requires Enabled(s, a) && IsCall(a) && PathsDiffer(s) && id in s.uploads && UploadOk(s, id) && UploadStored(s, id)
    requires DeleteOk(s, a.d)
    ensures UploadStored(Apply(s, a), id)
  {}

  lemma StoredWhenBegun(s: State, a: Action)
    requires Inv(s) && ObjectsInv(s) && Enabled(s, a) && a.StartUpload? && NewPath(s, a)
    ensures UploadStored(Apply(s, a), a.id)
  {}

  lemma PathsStayDifferent(s: State, a: Action)
    requires PathsDiffer(s) && Enabled(s, a) && NewPath(s, a)
    ensures PathsDiffer(Apply(s, a))
  {}

  lemma StepKeepsStore(s: State, a: Action)
    requires Inv(s) && StoreInv(s) && Enabled(s, a) && NewPath(s, a)
    ensures StoreInv(Apply(s, a))
  {
    var s' := Apply(s, a);
    ObjectsStayBacked(s, a);
    PathsStayDifferent(s, a);
    forall id | id in s'.uploads ensures UploadStored(s', id) {
      if id !in s.uploads {
        StoredWhenBegun(s, a);
      } else if IsUploadStep(a) {
        assert UploadOk(s, id) && (a.Put? ==> UploadOk(s, a.id));
        StoredAfterUploadStep(s, a, id);
      } else if IsCall(a) {
        assert UploadOk(s, id) && DeleteOk(s, a.d);
        StoredAfterDeleteStep(s, a, id);
      } else {
        assert UploadStored(s, id);
      }
    }
  }

  lemma {:induction false} RunKeepsStore(s: State, run: seq<Action>)
    requires Inv(s) && StoreInv(s) && Legal(s, run) && FreshRun(s, run)
    ensures Inv(Run(s, run)) && StoreInv(Run(s, run))
    decreases |run|
  {
    if run != [] {
      StepKeepsInv(s, run[0]);
      StepKeepsStore(s, run[0]);
      RunKeepsStore(Apply(s, run[0]), run[1..]);
    }
  }

  predicate NoUploadBegins(run: seq<Action>) { forall a :: a in run ==> !a.StartUpload? }

  lemma {:induction false} QuietRunIsFresh(s: State, run: seq<Action>)
    requires Legal(s, run) && NoUploadBegins(run)
    ensures FreshRun(s, run)
    decreases |run|
  {
    if run != [] {
      assert run[0] in run;
      QuietRunIsFresh(Apply(s, run[0]), run[1..]);
    }
  }

  /** A run that begins one upload, at its start. */
  lemma UploadRunKeeps(s: State, run: seq<Action>)
    requires Inv(s) && Legal(s, run) && run != [] && NoUploadBegins(run[1..])
    ensures Inv(Run(s, run))
    ensures StoreInv(s) && NewPath(s, run[0]) ==> StoreInv(Run(s, run))
  {
    RunKeepsInv(s, run);
    if StoreInv(s) && NewPath(s, run[0]) {
      QuietRunIsFresh(Apply(s, run[0]), run[1..]);
      RunKeepsStore(s, run);
    }
  }

  // What every run keeps in which uploads are stored at new paths.

  /** A row without its object comes from a delete, by someone allowed to delete it, that removed the
      object. */
  lemma RowWithoutObject(run: seq<Action>, id: string) returns (d: nat)
    requires Legal(EMPTY, run) && FreshRun(EMPTY, run)
    requires var s := Run(EMPTY, run); id in s.rows && !There(s, s.rows[id])
    ensures var s := Run(EMPTY, run);
            && id in s.removed && s.removed[id] == d
            && d in s.deletes && GotThrough(s.deletes[d], id, s.rows[id])
  {
    RunKeepsStore(EMPTY, run);
    var s := Run(EMPTY, run);
    assert UploadOk(s, id) && UploadStored(s, id);
    d := s.removed[id];
  }

  /** An object without a row comes from an upload whose insert never took effect, and which did not
      report success. */
  lemma ObjectWithoutRow(run: seq<Action>, path: string) returns (id: string)
    requires Legal(EMPTY, run) && FreshRun(EMPTY, run)
    requires var s := Run(EMPTY, run); path in s.objects && forall id :: id in s.rows ==> s.rows[id].path != Some(path)
    ensures var s := Run(EMPTY, run);
            id in s.uploads && s.uploads[id].file.path == Some(path) && id !in s.inserted
            && !s.uploads[id].pc.Putting? && s.uploads[id].pc != Uploaded(Created)
  {
    RunKeepsStore(EMPTY, run);
    var s := Run(EMPTY, run);
    id :| id in s.uploads && s.uploads[id].file.path == Some(path);
    assert UploadOk(s, id) && UploadStored(s, id);
  }

  /** An upload that reported success keeps its object and its row, as uploaded, until the object is
      removed, by a delete of someone allowed to delete it. */
  lemma DurableUntilDeleted(run: seq<Action>, id: string)
    requires Legal(EMPTY, run) && FreshRun(EMPTY, run)
    requires var s := Run(EMPTY, run); id in s.uploads && s.uploads[id].pc == Uploaded(Created)
    ensures var s := Run(EMPTY, run);
            if id in s.removed
            then s.removed[id] in s.deletes && GotThrough(s.deletes[s.removed[id]], id, s.uploads[id].file)
                 && !There(s, s.uploads[id].file)
            else id in s.rows && s.rows[id] == s.uploads[id].file && There(s, s.rows[id])
  {
    RunKeepsStore(EMPTY, run);
    var s := Run(EMPTY, run);
    assert UploadOk(s, id) && UploadStored(s, id);
  }

  /** A delete that reported success leaves neither object nor row, then and ever after. */
  lemma GoneIsGone(run: seq<Action>, d: nat)
    requires Legal(EMPTY, run) && FreshRun(EMPTY, run)
    requires var s := Run(EMPTY, run); d in s.deletes && s.deletes[d].pc == Answered(Gone)
    ensures var s := Run(EMPTY, run);
            var id := s.deletes[d].id;
            id !in s.rows && id in s.uploads && !There(s, s.uploads[id].file)
  {
    RunKeepsStore(EMPTY, run);
    var s := Run(EMPTY, run);
    assert DeleteOk(s, d);
    assert UploadOk(s, s.deletes[d].id) && UploadStored(s, s.deletes[d].id);
  }

  lemma RowsAreStored(s: State, id: string)
    requires Inv(s) && id in s.rows
    ensures Located(s.rows[id]) && s.rows[id].path.Some?
  {
    assert UploadOk(s, id);
  }

  // When uploads are stored at new paths.

  /** The upload's key is made of its own id, of a tenant and an owner whose names a URL takes as they
      are, and of any file name. */
  ghost predicate OrdinaryUpload(id: string, f: File, blank: char -> bool) {
    && P.Tame(id) && P.Ordinary(f.tenant, f.owner) && Located(f)
    && exists name :: f.key == K.ObjectKey(f.tenant, f.owner, id, name, blank)
  }

  ghost predicate OrdinaryUploads(s: State, blank: char -> bool) {
    forall id :: id in s.uploads ==> OrdinaryUpload(id, s.uploads[id].file, blank)
  }

  ghost predicate OrdinaryRun(run: seq<Action>, blank: char -> bool) {
    forall a :: a in run && a.StartUpload? ==> OrdinaryUpload(a.id, a.file, blank)
  }

  lemma OrdinaryUploadsDiffer(id1: string, f1: File, id2: string, f2: File, blank: char -> bool)
    requires OrdinaryUpload(id1, f1, blank) && OrdinaryUpload(id2, f2, blank) && f1.path.Some? && f1.path == f2.path
    ensures id1 == id2
  {
    var n1 :| f1.key == K.ObjectKey(f1.tenant, f1.owner, id1, n1, blank);
    var n2 :| f2.key == K.ObjectKey(f2.tenant, f2.owner, id2, n2, blank);
    P.OrdinaryNeverMeet(f1.tenant, f1.owner, id1, n1, f2.tenant, f2.owner, id2, n2, blank);
  }

  /** With ordinary tenants and owners new ids are enough: every run stores every upload at a new path. */
  lemma {:induction false} OrdinaryRunsAreFresh(s: State, run: seq<Action>, blank: char -> bool)
    requires Legal(s, run) && OrdinaryRun(run, blank) && OrdinaryUploads(s, blank)
    ensures FreshRun(s, run)
    decreases |run|
  {
    if run != [] {
      var a := run[0];
      assert a in run;
      if a.StartUpload? && a.file.path.Some? {
        forall id | id in s.uploads ensures s.uploads[id].file.path != a.file.path {
          if s.uploads[id].file.path == a.file.path { OrdinaryUploadsDiffer(id, s.uploads[id].file, a.id, a.file, blank); }
        }
      }
      UploadsStayOrdinary(s, a, blank);
      OrdinaryRunsAreFresh(Apply(s, a), run[1..], blank);
    }
  }

  /** No action changes what an upload stores. */
  lemma UploadsKeepFiles(s: State, a: Action)
    requires Enabled(s, a)
    ensures var s' := Apply(s, a); forall id :: id in s'.uploads ==>
              if id in s.uploads then s'.uploads[id].file == s.uploads[id].file
              else a.StartUpload? && a.id == id && s'.uploads[id].file == a.file
  {}

  lemma UploadsStayOrdinary(s: State, a: Action, blank: char -> bool)
    requires Enabled(s, a) && (a.StartUpload? ==> OrdinaryUpload(a.id, a.file, blank)) && OrdinaryUploads(s, blank)
    ensures OrdinaryUploads(Apply(s, a), blank)
  {
    UploadsKeepFiles(s, a);
  }

  // What every run keeps, wherever objects are stored.

  /** A delete that was let in finds at its erasure either its row or no row: the statement's owner
      condition never turns away whom the handler let in. */
  lemma EraseNeverMisses(run: seq<Action>, d: nat)
    requires Legal(EMPTY, run)
    requires var s := Run(EMPTY, run); d in s.deletes && s.deletes[d].pc.Erasing?
    ensures var s := Run(EMPTY, run); Hits(s, s.deletes[d]) <==> s.deletes[d].id in s.rows
  {
    RunKeepsInv(EMPTY, run);
    var s := Run(EMPTY, run);
    assert DeleteOk(s, d);
    assert UploadOk(s, s.deletes[d].id);
  }

  /** In every run, no call of a delete by someone else, whatever its fate, changes either store:
      such a delete is turned away before it gets to the removal. */
  lemma OthersChangeNothing(run: seq<Action>, a: Action)
    requires Legal(EMPTY, run) && Enabled(Run(EMPTY, run), a) && IsCall(a)
    requires var s := Run(EMPTY, run);
             var del := s.deletes[a.d];
             || del.id !in s.uploads
             || del.who.user != s.uploads[del.id].file.owner
             || (del.who.tenant != "" && s.uploads[del.id].file.tenant != "" && del.who.tenant != s.uploads[del.id].file.tenant)
    ensures var s, s' := Run(EMPTY, run), Apply(Run(EMPTY, run), a);
            s'.rows == s.rows && s'.objects == s.objects && s'.removed == s.removed
  {
    RunKeepsInv(EMPTY, run);
    assert DeleteOk(Run(EMPTY, run), a.d);
  }

  lemma {:induction false} RunOneMore(s: State, run: seq<Action>, a: Action)
    requires Legal(s, run) && Enabled(Run(s, run), a)
    ensures Legal(s, run + [a]) && Run(s, run + [a]) == Apply(Run(s, run), a)
    decreases |run|
  {
    if run == [] {
      assert [a][1..] == [];
      assert [] + [a] == [a];
      assert Legal(Apply(s, a), [a][1..]);
    } else {
      RunOneMore(Apply(s, run[0]), run[1..], a);
      assert (run + [a])[1..] == run[1..] + [a];
    }
  }

  /** Extends a run by one action, for building runs step by step. */
  lemma Extend(s0: State, run: seq<Action>, s: State, a: Action) returns (run': seq<Action>, s': State)
    requires Legal(s0, run) && Run(s0, run) == s && Enabled(s, a)
    ensures run' == run + [a] && s' == Apply(s, a)
    ensures Legal(s0, run') && Run(s0, run') == s'
  {
    RunOneMore(s0, run, a);
    run', s' := run + [a], Apply(s, a);
  }

  /** A delete on its own, without faults. */
  function DeleteRun(d: nat, id: string, who: Identity): (run: seq<Action>) {
    [StartDelete(d, id, who), Look(d, Succeeds), Remove(d, Succeeds), Erase(d, Succeeds)]
  }

  /** Whatever earlier calls left behind, retrying a delete of a file whose row is there finishes:
      removing an object that is already gone succeeds. */
  lemma RetryFinishes(s: State, d: nat, id: string, who: Identity)
    requires Inv(s) && id in s.rows && d !in s.deletes && CanAccess(who, s.rows[id])
    ensures s.rows[id].path.Some?
    ensures Legal(s, DeleteRun(d, id, who)) && d in Run(s, DeleteRun(d, id, who)).deletes
    ensures var s' := Run(s, DeleteRun(d, id, who));
            && s'.deletes[d].pc == Answered(Gone)
            && s'.rows == s.rows - {id} && s'.objects == s.objects - {s.rows[id].path.value}
            && s'.uploads == s.uploads && s'.removed == s.removed[id := d]
  {
    RowsAreStored(s, id);
    var run, s1 := DeleteAlone(s, [], s, d, id, who);
    assert [] + DeleteRun(d, id, who) == DeleteRun(d, id, who);
  }

  lemma LetIn(s0: State, done: seq<Action>, s: State, d: nat, id: string, who: Identity)
    returns (run: seq<Action>, s': State)
    requires Legal(s0, done) && s == Run(s0, done)
    requires id in s.rows && d !in s.deletes && CanAccess(who, s.rows[id])
    ensures run == done + [StartDelete(d, id, who), Look(d, Succeeds)]
    ensures Legal(s0, run) && s' == Run(s0, run)
    ensures s' == s.(deletes := s.deletes[d := Delete(id, who, Removing(s.rows[id]))])
  {
    run, s' := Extend(s0, done, s, StartDelete(d, id, who));
    run, s' := Extend(s0, run, s', Look(d, Succeeds));
  }

  lemma Removes(s0: State, done: seq<Action>, s: State, d: nat, id: string, who: Identity)
    returns (run: seq<Action>, s': State)
    requires Legal(s0, done) && s == Run(s0, done)
    requires id in s.rows && s.rows[id].path.Some?
    requires d in s.deletes && s.deletes[d] == Delete(id, who, Removing(s.rows[id]))
    ensures run == done + [Remove(d, Succeeds)]
    ensures Legal(s0, run) && s' == Run(s0, run)
    ensures s' == s.(objects := s.objects - {s.rows[id].path.value}, removed := s.removed[id := d],
                     deletes := s.deletes[d := Delete(id, who, Erasing(s.rows[id]))])
  {
    run, s' := Extend(s0, done, s, Remove(d, Succeeds));
  }

  lemma Erases(s0: State, done: seq<Action>, s: State, d: nat, id: string, who: Identity)
    returns (run: seq<Action>, s': State)
    requires Legal(s0, done) && s == Run(s0, done)
    requires id in s.rows && CanAccess(who, s.rows[id])
    requires d in s.deletes && s.deletes[d] == Delete(id, who, Erasing(s.rows[id]))
    ensures run == done + [Erase(d, Succeeds)]
    ensures Legal(s0, run) && s' == Run(s0, run)
    ensures s' == s.(rows := s.rows - {id}, deletes := s.deletes[d := Delete(id, who, Answered(Gone))])
  {
    CheckAgreesWithQuery(who, s.rows[id]);
    run, s' := Extend(s0, done, s, Erase(d, Succeeds));
  }

  lemma DeleteAlone(s0: State, done: seq<Action>, s: State, d: nat, id: string, who: Identity)
    returns (run: seq<Action>, s': State)
    requires Legal(s0, done) && s == Run(s0, done)
    requires id in s.rows && d !in s.deletes && CanAccess(who, s.rows[id]) && s.rows[id].path.Some?
    ensures run == done + DeleteRun(d, id, who)
    ensures Legal(s0, run) && s' == Run(s0, run)
    ensures s' == s.(objects := s.objects - {s.rows[id].path.value}, rows := s.rows - {id}, removed := s.removed[id := d],
                     deletes := s.deletes[d := Delete(id, who, Answered(Gone))])
  {
    run, s' := LetIn(s0, done, s, d, id, who);
    run, s' := Removes(s0, run, s', d, id, who);
    run, s' := Erases(s0, run, s', d, id, who);
  }

  // Two files at one path.

  lemma Puts(s0: State, done: seq<Action>, s: State, id: string, f: File) returns (run: seq<Action>, s': State)
    requires Legal(s0, done) && s == Run(s0, done)
    requires id !in s.uploads && Located(f) && f.path.Some?
    ensures Legal(s0, run) && s' == Run(s0, run)
    ensures s' == s.(objects := s.objects + {f.path.value}, uploads := s.uploads[id := Upload(f, Inserting)])
  {
    run, s' := Extend(s0, done, s, StartUpload(id, f));
    run, s' := Extend(s0, run, s', Put(id, Succeeds));
  }

  lemma UploadAlone(s0: State, done: seq<Action>, s: State, id: string, f: File) returns (run: seq<Action>, s': State)
    requires Legal(s0, done) && s == Run(s0, done)
    requires id !in s.uploads && Located(f) && f.path.Some? && !KeyTaken(s.rows, f.key)
    ensures Legal(s0, run) && s' == Run(s0, run)
    ensures s' == s.(objects := s.objects + {f.path.value}, rows := s.rows[id := f],
                     uploads := s.uploads[id := Upload(f, Uploaded(Created))], inserted := s.inserted + {id})
  {
    run, s' := Puts(s0, done, s, id, f);
    run, s' := Extend(s0, run, s', Insert(id, Succeeds));
  }

  /** Two files that are stored at one path: without any fault, deleting the first leaves the second, which
      was created and never deleted, without its object. */
  lemma SharedPathLosesObject(f1: File, id1: string, f2: File, id2: string, who: Identity) returns (run: seq<Action>)
    requires Located(f1) && Located(f2) && OnePath(f1, f2) && f1.key != f2.key
    requires id1 != id2 && CanAccess(who, f1)
    ensures Legal(EMPTY, run)
    ensures var s := Run(EMPTY, run);
            && id2 in s.uploads && s.uploads[id2] == Upload(f2, Uploaded(Created))
            && id2 in s.rows && s.rows[id2] == f2 && id2 !in s.removed && !There(s, f2)
            && forall d :: d in s.deletes ==> s.deletes[d].id != id2
  {
    var s;
    run, s := UploadAlone(EMPTY, [], EMPTY, id1, f1);
    run, s := UploadAlone(EMPTY, run, s, id2, f2);
    assert s.rows == map[id1 := f1, id2 := f2];
    run, s := DeleteAlone(EMPTY, run, s, 0, id1, who);
  }

  /** A file of the owner "a#b", uploaded without a name. */
  function HashedFile(id: string, blank: char -> bool): (f: File) {
    File("a#b", "t", K.ObjectKey("t", "a#b", id, "", blank), Some("t/a"))
  }

  lemma HashedFilesDiffer(id1: string, id2: string, blank: char -> bool)
    requires P.Tame(id1) && P.Tame(id2) && id1 != id2
    ensures HashedFile(id1, blank).key != HashedFile(id2, blank).key
  {
    K.SanitizedIsPlain("", blank);
    if HashedFile(id1, blank).key == HashedFile(id2, blank).key {
      K.KeyIdentifiesFile("t", "a#b", id1, "", "t", "a#b", id2, "", blank);
    }
  }

  /** An owner with a "#" in its name: any two of its files are one object, and deleting the first
      without any fault takes it from the second. */
  lemma HashInOwner(id1: string, id2: string, blank: char -> bool) returns (run: seq<Action>)
    requires P.Tame(id1) && P.Tame(id2) && id1 != id2
    ensures Located(HashedFile(id2, blank)) && Legal(EMPTY, run)
    ensures var s := Run(EMPTY, run);
            && id2 in s.uploads && s.uploads[id2] == Upload(HashedFile(id2, blank), Uploaded(Created))
            && id2 in s.rows && s.rows[id2] == HashedFile(id2, blank)
            && !There(s, s.rows[id2]) && forall d :: d in s.deletes ==> s.deletes[d].id != id2
  {
    HashedFilesDiffer(id1, id2, blank);
    P.HashInOwner(id1, blank);
    P.HashInOwner(id2, blank);
    run := SharedPathLosesObject(HashedFile(id1, blank), id1, HashedFile(id2, blank), id2, Identity("a#b", "t"));
  }
}
