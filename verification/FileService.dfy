/** The file service's handlers as they run, one request at a time; overlap is the protocol in
    Files. */
module FileService {
  import opened Common
  import F = Files
  import P = StoredPaths

  datatype UploadReply = CreatedReply | TooLarge | FileRequired | Failure

  datatype DeleteReply = NoContent | IdRequired | NotFoundReply | ForbiddenReply | DeleteFailure

  /** A lookup's outcome. */
  datatype Found = Row(file: F.File) | NoRows | DbError

  class Service {
    var objects: set<string>
    var rows: map<string, F.File>
    const maxBytes: int

    /** A limit that is not positive stands for 20 MiB. */
    constructor (maxBytes: int)
      ensures Shows(F.EMPTY) && this.maxBytes > 0
      ensures maxBytes > 0 ==> this.maxBytes == maxBytes
      ensures maxBytes <= 0 ==> this.maxBytes == 20 * 1024 * 1024
    {
      this.maxBytes := if maxBytes <= 0 then 20971520 else maxBytes;
      objects, rows := {}, map[];
    }

    ghost predicate Shows(s: F.State)
      reads this
    {
      s.objects == objects && s.rows == rows
    }

    /** The object goes where the URL made of the key says, and nowhere if the key makes no URL. */
    method PutObject(key: string, fate: Fate) returns (ok: bool)
      modifies this`objects
      ensures ok <==> P.StoredPath(key).Some? && fate.Succeeds?
      ensures objects == if P.StoredPath(key).None? || fate.FailsBefore? then old(objects)
                         else old(objects) + {P.StoredPath(key).value}
    {
      var path := P.StoredPath(key);
      if path.None? || fate.FailsBefore? { return false; }
      objects := objects + {path.value};
      ok := fate.Succeeds?;
    }

    /** Removing an object that is not there succeeds. */
    method DeleteObject(key: string, fate: Fate) returns (ok: bool)
      modifies this`objects
      ensures ok <==> P.StoredPath(key).Some? && fate.Succeeds?
      ensures objects == if P.StoredPath(key).None? || fate.FailsBefore? then old(objects)
                         else old(objects) - {P.StoredPath(key).value}
    {
      var path := P.StoredPath(key);
      if path.None? || fate.FailsBefore? { return false; }
      objects := objects - {path.value};
      ok := fate.Succeeds?;
    }

    /** Fails on a key that another row has; ids are new. */
    method Insert(id: string, file: F.File, fate: Fate) returns (ok: bool)
      requires id !in rows
      modifies this`rows
      ensures ok <==> fate.Succeeds? && !F.KeyTaken(old(rows), file.key)
      ensures rows == if fate.FailsBefore? || F.KeyTaken(old(rows), file.key) then old(rows) else old(rows)[id := file]
    {
      if fate.FailsBefore? || F.KeyTaken(rows, file.key) { return false; }
      rows := rows[id := file];
      ok := fate.Succeeds?;
    }

    method GetById(id: string, fate: Fate) returns (r: Found)
      ensures r == if !fate.Succeeds? then DbError else if id in rows then Row(rows[id]) else NoRows
    {
      if !fate.Succeeds? { return DbError; }
      if id !in rows { return NoRows; }
      return Row(rows[id]);
    }

    /** DELETE ... WHERE id and owner and tenant match; NoRows when no row was affected. */
    method DeleteById(id: string, owner: string, tenant: string, fate: Fate) returns (r: Found)
      modifies this`rows
      ensures var hit := id in old(rows) && F.Matches(old(rows)[id], owner, tenant);
              && (r.Row? <==> fate.Succeeds? && hit) && (r.NoRows? <==> fate.Succeeds? && !hit)
              && rows == if !fate.FailsBefore? && hit then old(rows) - {id} else old(rows)
    {
      if fate.FailsBefore? { return DbError; }
      if id in rows && F.Matches(rows[id], owner, tenant) {
        r := if fate.Succeeds? then Row(rows[id]) else DbError;
        rows := rows - {id};
      } else {
        r := if fate.Succeeds? then NoRows else DbError;
      }
    }

    /** The upload handler once the part is accepted. */
    method PutThenInsert(id: string, file: F.File, put: Fate, insert: Fate, ghost s: F.State)
      returns (ok: bool, ghost trace: seq<F.Action>)
      requires Shows(s) && id !in rows && F.Enabled(s, F.StartUpload(id, file))
      modifies this
      ensures F.Legal(s, trace) && Shows(F.Run(s, trace))
      ensures trace != [] && trace[0] == F.StartUpload(id, file) && F.NoUploadBegins(trace[1..])
      ensures ok <==> P.StoredPath(file.key).Some? && put.Succeeds? && insert.Succeeds? && !F.KeyTaken(old(rows), file.key)
      ensures ok ==> rows == old(rows)[id := file] && objects == old(objects) + {P.StoredPath(file.key).value}
      ensures !put.Succeeds? || P.StoredPath(file.key).None? ==> rows == old(rows)
      ensures id in F.Run(s, trace).uploads && (ok <==> F.Run(s, trace).uploads[id].pc == F.Uploaded(F.Created))
    {
      ghost var s1;
      trace, s1 := F.Extend(s, [], s, F.StartUpload(id, file));
      ok := PutObject(file.key, put);
      ghost var sent := if file.path.None? then FailsBefore else put;
      trace, s1 := F.Extend(s, trace, s1, F.Put(id, sent));
      if !ok { return; }
      ok := Insert(id, file, insert);
      trace, s1 := F.Extend(s, trace, s1, F.Insert(id, insert));
    }

    /** POST: size is the part's, None when the form has no file; id is the new file id and file
        carries the caller's tenant and user and the key made of them. */
    method Upload(size: Option<int>, id: string, file: F.File, put: Fate, insert: Fate, ghost s: F.State)
      returns (reply: UploadReply, ghost trace: seq<F.Action>)
      requires Shows(s) && F.Inv(s) && F.Enabled(s, F.StartUpload(id, file))
      modifies this
      ensures F.Legal(s, trace) && Shows(F.Run(s, trace)) && F.Inv(F.Run(s, trace))
      ensures F.StoreInv(s) && F.NewPath(s, F.StartUpload(id, file)) ==> F.StoreInv(F.Run(s, trace))
      ensures reply.FileRequired? <==> size.None?
      ensures reply.TooLarge? <==> size.Some? && size.value > maxBytes
      ensures reply.CreatedReply? <==>
              && size.Some? && size.value <= maxBytes
              && P.StoredPath(file.key).Some? && put.Succeeds? && insert.Succeeds? && !F.KeyTaken(old(rows), file.key)
      ensures reply.CreatedReply? ==> rows == old(rows)[id := file]
                                      && objects == old(objects) + {P.StoredPath(file.key).value}
      ensures reply.FileRequired? || reply.TooLarge? ==> trace == []
      ensures !put.Succeeds? || P.StoredPath(file.key).None? ==> rows == old(rows)
      ensures reply.CreatedReply? || reply.Failure? ==>
                id in F.Run(s, trace).uploads
                && (reply.CreatedReply? <==> F.Run(s, trace).uploads[id].pc == F.Uploaded(F.Created))
    {
      if size.None? { return FileRequired, []; }
      if size.value > maxBytes { return TooLarge, []; }
      var ok;
      ok, trace := PutThenInsert(id, file, put, insert, s);
      F.UploadRunKeeps(s, trace);
      reply := if ok then CreatedReply else Failure;
    }

    /** The delete handler from the object removal on, for a caller who was let in. */
    method RemoveThenErase(id: string, who: F.Identity, f: F.File, remove: Fate, erase: Fate,
                           ghost d: nat, ghost s0: F.State, ghost done: seq<F.Action>)
      returns (reply: DeleteReply, ghost trace: seq<F.Action>)
      requires F.Legal(s0, done) && Shows(F.Run(s0, done))
      requires d in F.Run(s0, done).deletes && F.Run(s0, done).deletes[d] == F.Delete(id, who, F.Removing(f))
      requires id in rows && rows[id] == f && F.CanAccess(who, f) && F.Located(f) && f.path.Some?
      modifies this
      ensures F.Legal(s0, trace) && Shows(F.Run(s0, trace)) && d in F.Run(s0, trace).deletes
      ensures reply == if remove.Succeeds? && erase.Succeeds? then NoContent else DeleteFailure
      ensures F.Run(s0, trace).deletes[d].pc == F.Answered(if reply.NoContent? then F.Gone else F.DeleteFailed)
      ensures reply.NoContent? ==> rows == old(rows) - {id} && objects == old(objects) - {P.StoredPath(f.key).value}
    {
      ghost var s1 := F.Run(s0, done);
      F.CheckAgreesWithQuery(who, f);
      var ok := DeleteObject(f.key, remove);
      trace, s1 := F.Extend(s0, done, s1, F.Remove(d, remove));
      if !ok { return DeleteFailure, trace; }
      var erased := DeleteById(id, who.user, who.tenant, erase);
      trace, s1 := F.Extend(s0, trace, s1, F.Erase(d, erase));
      reply := match erased case Row(_) => NoContent case NoRows => NotFoundReply case DbError => DeleteFailure;
    }

    /** What the handler answers without faults. */
    ghost function Verdict(id: string, who: F.Identity): (reply: DeleteReply)
      reads this
    {
      if id == "" then IdRequired else if id !in rows then NotFoundReply
      else if who.user != rows[id].owner then ForbiddenReply
      else if who.tenant != "" && rows[id].tenant != "" && who.tenant != rows[id].tenant then ForbiddenReply
      else NoContent
    }

    /** DELETE: id is the path value. */
    method Delete(id: string, who: F.Identity, look: Fate, remove: Fate, erase: Fate, ghost d: nat, ghost s: F.State)
      returns (reply: DeleteReply, ghost trace: seq<F.Action>)
      requires Shows(s) && F.Inv(s) && d !in s.deletes
      modifies this
      ensures F.Legal(s, trace) && Shows(F.Run(s, trace))
      ensures id == "" ==> trace == []
      ensures id != "" ==> d in F.Run(s, trace).deletes
                           && (reply.NoContent? <==> F.Run(s, trace).deletes[d].pc == F.Answered(F.Gone))
      ensures reply == old(Verdict(id, who)) || reply.DeleteFailure?
      ensures look.Succeeds? && remove.Succeeds? && erase.Succeeds? ==> reply == old(Verdict(id, who))
      ensures reply.NoContent? ==> rows == old(rows) - {id}
                                   && objects == old(objects) - {P.StoredPath(old(rows)[id].key).value}
      ensures !old(Verdict(id, who)).NoContent? ==> rows == old(rows) && objects == old(objects)
    {
      trace := [];
      if id == "" { return IdRequired, trace; }
      ghost var s1 := s;
      trace, s1 := F.Extend(s, trace, s1, F.StartDelete(d, id, who));
      var found := GetById(id, look);
      trace, s1 := F.Extend(s, trace, s1, F.Look(d, look));
      if found.DbError? { return DeleteFailure, trace; }
      if found.NoRows? { return NotFoundReply, trace; }
      F.CheckAgreesWithQuery(who, found.file);
      if !F.CanAccess(who, found.file) { return ForbiddenReply, trace; }
      F.RowsAreStored(s, id);
      reply, trace := RemoveThenErase(id, who, found.file, remove, erase, d, s, trace);
    }
  }
}
