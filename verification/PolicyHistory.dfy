/** Elevation policies and their version history
    (internal/api/elevation.go:141-174, 209-237; internal/store/elevation.go:37-158). */
module PolicyHistory {

  /** What an update replaces: the canonical rules, their hash and the description. */
  datatype Doc = Doc(rules: string, hash: string, description: string)
  datatype Row = Row(id: string, name: string, doc: Doc)
  datatype Version = Version(policy: string, number: int, doc: Doc)

  datatype Db = Db(rows: seq<Row>, versions: seq<Version>)

  datatype Outcome = BadRequest | NotFound | Conflict | Failed | Done

  // ---- the SQL statements ----

  function FindId(rows: seq<Row>, id: string): (k: nat)
    ensures k <= |rows| && (k < |rows| ==> rows[k].id == id)
    ensures forall j :: 0 <= j < k ==> rows[j].id != id
  {
    if rows == [] || rows[0].id == id then 0 else 1 + FindId(rows[1..], id)
  }

  function FindName(rows: seq<Row>, name: string): (k: nat)
    ensures k <= |rows| && (k < |rows| ==> rows[k].name == name)
    ensures forall j :: 0 <= j < k ==> rows[j].name != name
  {
    if rows == [] || rows[0].name == name then 0 else 1 + FindName(rows[1..], name)
  }

  /** SELECT ... WHERE id=? OR name=?: the position of the row it returns, or |rows|.  Each half of
      the condition has its own unique index, and the one of the id is searched first. */
  function Find(rows: seq<Row>, key: string): (k: nat)
    ensures k <= |rows| && (k < |rows| ==> rows[k].id == key || rows[k].name == key)
    ensures k == |rows| ==> forall j :: 0 <= j < |rows| ==> rows[j].id != key && rows[j].name != key
  {
    var k := FindId(rows, key);
    if k < |rows| then k else FindName(rows, key)
  }

  /** SELECT COALESCE(MAX(version), 0) ... WHERE policy_id=? */
  function MaxVersion(vs: seq<Version>, id: string): (m: int)
    ensures m >= 0
    ensures forall k :: 0 <= k < |vs| && vs[k].policy == id ==> vs[k].number <= m
  {
    if vs == [] then 0
    else
      var m := MaxVersion(vs[..|vs| - 1], id);
      var v := vs[|vs| - 1];
      if v.policy == id && v.number > m then v.number else m
  }

  /** INSERT, which the UNIQUE(policy_id, version) constraint or the database may refuse. */
  function Insert(vs: seq<Version>, v: Version, ok: bool): seq<Version> {
    if ok && Get(vs, v.policy, v.number) == |vs| then vs + [v] else vs
  }

  /** SELECT ... WHERE policy_id=? AND version=? */
  function Get(vs: seq<Version>, id: string, number: int): (k: nat)
    ensures k <= |vs| && (k < |vs| ==> vs[k].policy == id && vs[k].number == number)
    ensures forall j :: 0 <= j < k ==> !(vs[j].policy == id && vs[j].number == number)
  {
    if vs == [] || (vs[0].policy == id && vs[0].number == number) then 0 else 1 + Get(vs[1..], id, number)
  }

  /** UPDATE ... WHERE id=? */
  function SetDoc(rows: seq<Row>, id: string, doc: Doc): (r: seq<Row>)
    ensures |r| == |rows|
    ensures forall k :: 0 <= k < |r| ==> r[k] == if rows[k].id == id then rows[k].(doc := doc) else rows[k]
  {
    seq(|rows|, k requires 0 <= k < |rows| => if rows[k].id == id then rows[k].(doc := doc) else rows[k])
  }

  /** SaveElevationPolicyVersion: the next number, then the insert. */
  function Save(vs: seq<Version>, r: Row, ok: bool): seq<Version> {
    Insert(vs, Version(r.id, MaxVersion(vs, r.id) + 1, r.doc), ok)
  }

  /** UpdateElevationPolicy: look the policy up again, then write it. */
  function Write(db: Db, key: string, doc: Doc, ok: bool): (Db, Outcome) {
    var p := Find(db.rows, key);
    if p == |db.rows| then (db, NotFound)
    else if !ok then (db, Failed)
    else (db.(rows := SetDoc(db.rows, db.rows[p].id, doc)), Done)
  }

  // ---- the requests ----

  /** Create, update, and restore of a version. body is None where the request carries no valid
      policy; saveOk and writeOk say whether the database takes the insert and the update. */
  datatype Body = NoBody | Body(doc: Doc)
  datatype Op =
    | Create(id: string, name: string, body: Body)
    | Update(key: string, body: Body, saveOk: bool, writeOk: bool)
    | Restore(key: string, number: int, saveOk: bool, writeOk: bool)

  function Apply(db: Db, op: Op): (Db, Outcome) {
    match op
    case Create(id, name, body) =>
      if body.NoBody? || name == "" then (db, BadRequest)
      else if exists k :: 0 <= k < |db.rows| && (db.rows[k].id == id || db.rows[k].name == name) then (db, Conflict)
      else (db.(rows := db.rows + [Row(id, name, body.doc)]), Done)
    case Update(key, body, saveOk, writeOk) =>
      if body.NoBody? then (db, BadRequest)
      else
        var cur := Find(db.rows, key);
        Write(if cur < |db.rows| then db.(versions := Save(db.versions, db.rows[cur], saveOk)) else db,
              key, body.doc, writeOk)
    case Restore(key, number, saveOk, writeOk) =>
      var p := Find(db.rows, key);
      if p == |db.rows| then (db, NotFound)
      else if number <= 0 then (db, BadRequest)
      else
        var v := Get(db.versions, db.rows[p].id, number);
        if v == |db.versions| then (db, NotFound)
        else Write(db.(versions := Save(db.versions, db.rows[p], saveOk)), db.rows[p].id, db.versions[v].doc, writeOk)
  }

  function After(db: Db, ops: seq<Op>): Db
    decreases |ops|
  {
    if ops == [] then db else After(Apply(db, ops[0]).0, ops[1..])
  }

  class Store {
    var rows: seq<Row>
    var versions: seq<Version>

    function View(): Db
      reads this
    {
      Db(rows, versions)
    }

    constructor ()
      ensures View() == Db([], [])
    {
      rows, versions := [], [];
    }

    /** The versions are appended to even where the write that follows fails. */
    method EplUpdate(key: string, body: Body, saveOk: bool, writeOk: bool) returns (out: Outcome)
      modifies this
      ensures (View(), out) == Apply(old(View()), Op.Update(key, body, saveOk, writeOk))
      ensures out != Done ==> rows == old(rows)
    {
      if body.NoBody? { return BadRequest; }
      var cur := Find(rows, key);
      if cur < |rows| {
        versions := Save(versions, rows[cur], saveOk);
      }
      var p := Find(rows, key);
      if p == |rows| { return NotFound; }
      if !writeOk { return Failed; }
      rows := SetDoc(rows, rows[p].id, body.doc);
      return Done;
    }

    method EplVersionRestore(key: string, number: int, saveOk: bool, writeOk: bool) returns (out: Outcome)
      modifies this
      ensures (View(), out) == Apply(old(View()), Op.Restore(key, number, saveOk, writeOk))
      ensures out != Done ==> rows == old(rows)
    {
      var p := Find(rows, key);
      if p == |rows| { return NotFound; }
      if number <= 0 { return BadRequest; }
      var v := Get(versions, rows[p].id, number);
      if v == |versions| { return NotFound; }
      var doc := versions[v].doc;
      versions := Save(versions, rows[p], saveOk);
      var q := Find(rows, rows[p].id);
      if q == |rows| { return NotFound; }
      if !writeOk { return Failed; }
      rows := SetDoc(rows, rows[q].id, doc);
      return Done;
    }
  }

  // ---- what every request keeps ----

  function Count(vs: seq<Version>, id: string): nat {
    if vs == [] then 0
    else Count(vs[..|vs| - 1], id) + if vs[|vs| - 1].policy == id then 1 else 0
  }

  /** Each version carries the next number of its policy. */
  ghost predicate Numbered(vs: seq<Version>) {
    forall k :: 0 <= k < |vs| ==> vs[k].number == Count(vs[..k], vs[k].policy) + 1
  }

  ghost predicate Inv(db: Db) {
    Distinct(db.rows) && Numbered(db.versions)
  }

  /** PRIMARY KEY on the id, UNIQUE on the name. */
  ghost predicate Distinct(rows: seq<Row>) {
    forall j, k :: 0 <= j < k < |rows| ==> rows[j].id != rows[k].id && rows[j].name != rows[k].name
  }

  /** What an update or a restore amounts to: the row it saves, and the document that replaces it. */
  datatype Change = Nothing | SaveOnly(saved: Row) | SaveAndWrite(saved: Row, doc: Doc)

  function ChangeBy(db: Db, op: Op): Change
    requires !op.Create?
  {
    var p := Find(db.rows, op.key);
    if p == |db.rows| then Nothing
    else
      var saved := db.rows[p];
      match op
      case Update(_, body, _, writeOk) =>
        if body.NoBody? then Nothing
        else if writeOk then SaveAndWrite(saved, body.doc)
        else SaveOnly(saved)
      case Restore(_, number, _, writeOk) =>
        var v := Get(db.versions, saved.id, number);
        if number <= 0 || v == |db.versions| then Nothing
        else if writeOk then SaveAndWrite(saved, db.versions[v].doc)
        else SaveOnly(saved)
  }

  lemma ChangeIs(db: Db, op: Op)
    requires !op.Create? && Distinct(db.rows)
    ensures Apply(db, op).0 == match ChangeBy(db, op)
                               case Nothing => db
                               case SaveOnly(saved) => db.(versions := Save(db.versions, saved, op.saveOk))
                               case SaveAndWrite(saved, doc) =>
                                 Db(SetDoc(db.rows, saved.id, doc), Save(db.versions, saved, op.saveOk))
    ensures ChangeBy(db, op).SaveAndWrite? ==> ChangeBy(db, op).saved in db.rows
  {
    var p := Find(db.rows, op.key);
    if p < |db.rows| { FindSelf(db.rows, p); }
  }

  /** A lookup by the id of a row finds that row, however other policies are named. */
  lemma FindSelf(rows: seq<Row>, p: nat)
    requires p < |rows| && Distinct(rows)
    ensures Find(rows, rows[p].id) == p
  {
  }

  lemma {:induction false} MaxIsCount(vs: seq<Version>, id: string)
    requires Numbered(vs)
    ensures MaxVersion(vs, id) == Count(vs, id)
    decreases |vs|
  {
    if vs != [] {
      var front := vs[..|vs| - 1];
      forall k | 0 <= k < |front| ensures front[k].number == Count(front[..k], front[k].policy) + 1 {
        assert front[..k] == vs[..k];
      }
      MaxIsCount(front, id);
    }
  }

  lemma SaveAppends(vs: seq<Version>, r: Row, ok: bool)
    requires Numbered(vs)
    ensures Numbered(Save(vs, r, ok))
    ensures Save(vs, r, ok) == if ok then vs + [Version(r.id, Count(vs, r.id) + 1, r.doc)] else vs
  {
    MaxIsCount(vs, r.id);
    var vs' := Save(vs, r, ok);
    forall k | 0 <= k < |vs'| ensures vs'[k].number == Count(vs'[..k], vs'[k].policy) + 1 {
      assert vs'[..k] == vs[..k];
      assert k == |vs| ==> vs[..k] == vs;
    }
  }

  lemma RowsStayDistinct(rows: seq<Row>, id: string, doc: Doc)
    requires Distinct(rows)
    ensures Distinct(SetDoc(rows, id, doc))
  {
  }

  lemma InvKept(db: Db, op: Op)
    requires Inv(db)
    ensures Inv(Apply(db, op).0)
  {
    if !op.Create? {
      ChangeIs(db, op);
      match ChangeBy(db, op)
      case Nothing =>
      case SaveOnly(saved) => SaveAppends(db.versions, saved, op.saveOk);
      case SaveAndWrite(saved, doc) =>
        SaveAppends(db.versions, saved, op.saveOk);
        RowsStayDistinct(db.rows, saved.id, doc);
    }
  }

  lemma FrontNumbered(vs: seq<Version>)
    requires Numbered(vs) && vs != []
    ensures Numbered(vs[..|vs| - 1])
  {
    var front := vs[..|vs| - 1];
    forall k | 0 <= k < |front| ensures front[k].number == Count(front[..k], front[k].policy) + 1 {
      assert front[..k] == vs[..k];
    }
  }

  ghost predicate HasNumber(vs: seq<Version>, id: string, n: int) {
    exists k :: 0 <= k < |vs| && vs[k].policy == id && vs[k].number == n
  }

  lemma HasNumberSnoc(front: seq<Version>, v: Version, id: string, n: int)
    ensures HasNumber(front + [v], id, n) <==> HasNumber(front, id, n) || (v.policy == id && v.number == n)
  {
    var vs := front + [v];
    assert vs[|front|] == v;
    if k :| 0 <= k < |front| && front[k].policy == id && front[k].number == n {
      assert vs[k] == front[k];
    }
  }

  lemma {:induction false} NumbersUsed(vs: seq<Version>, id: string, n: int)
    requires Numbered(vs)
    ensures HasNumber(vs, id, n) <==> 1 <= n <= Count(vs, id)
    decreases |vs|
  {
    if vs != [] {
      var front, last := vs[..|vs| - 1], vs[|vs| - 1];
      assert front + [last] == vs;
      FrontNumbered(vs);
      NumbersUsed(front, id, n);
      HasNumberSnoc(front, last, id, n);
      assert last.number == Count(front, last.policy) + 1;
    }
  }

  /** The versions of a policy are numbered 1..n, each number once and in the order they were saved. */
  lemma NumbersAreContiguous(vs: seq<Version>, id: string, n: int)
    requires Numbered(vs)
    ensures Get(vs, id, n) < |vs| <==> 1 <= n <= Count(vs, id)
    ensures forall j, k :: 0 <= j < k < |vs| && vs[j].policy == vs[k].policy ==> vs[j].number < vs[k].number
  {
    NumbersUsed(vs, id, n);
    forall j, k | 0 <= j < k < |vs| && vs[j].policy == vs[k].policy ensures vs[j].number < vs[k].number {
      var front := vs[..k];
      assert front[j] == vs[j];
      assert Numbered(front) by {
        forall m | 0 <= m < k ensures front[m].number == Count(front[..m], front[m].policy) + 1 {
          assert front[..m] == vs[..m];
        }
      }
      assert HasNumber(front, vs[j].policy, vs[j].number);
      NumbersUsed(front, vs[j].policy, vs[j].number);
    }
  }

  // ---- no document is lost ----

  ghost predicate Current(db: Db, id: string, d: Doc) {
    exists k :: 0 <= k < |db.rows| && db.rows[k].id == id && db.rows[k].doc == d
  }

  ghost predicate Recorded(vs: seq<Version>, id: string, d: Doc) {
    exists k :: 0 <= k < |vs| && vs[k].policy == id && vs[k].doc == d
  }

  ghost predicate Kept(db: Db, id: string, d: Doc) { Current(db, id, d) || Recorded(db.versions, id, d) }

  ghost predicate Lossless(db: Db, db': Db) {
    forall id, d :: Kept(db, id, d) ==> Kept(db', id, d)
  }

  /** A request is careful when the save of the row it overwrites goes through, or when that row
      already holds the new document, or has its document in the history. */
  ghost predicate Careful(db: Db, op: Op) {
    op.Create? ||
    match ChangeBy(db, op)
    case SaveAndWrite(saved, doc) =>
      op.saveOk || saved.doc == doc || Recorded(db.versions, saved.id, saved.doc)
    case _ => true
  }

  lemma RecordedGrows(vs: seq<Version>, r: Row, ok: bool, id: string, d: Doc)
    requires Numbered(vs)
    ensures Recorded(Save(vs, r, ok), id, d) <==> Recorded(vs, id, d) || (ok && r.id == id && r.doc == d)
  {
    SaveAppends(vs, r, ok);
    var vs' := Save(vs, r, ok);
    assert ok ==> vs'[|vs|] == Version(r.id, Count(vs, r.id) + 1, r.doc);
    if k :| 0 <= k < |vs| && vs[k].policy == id && vs[k].doc == d { assert vs'[k] == vs[k]; }
  }

  lemma SetDocCurrent(db: Db, target: Row, doc: Doc, id: string, d: Doc)
    requires Inv(db) && target in db.rows
    ensures var db' := db.(rows := SetDoc(db.rows, target.id, doc));
            Current(db', id, d) <==> if id == target.id then d == doc else Current(db, id, d)
  {
    var db' := db.(rows := SetDoc(db.rows, target.id, doc));
    var t :| 0 <= t < |db.rows| && db.rows[t] == target;
    assert db'.rows[t] == target.(doc := doc);
    if id != target.id {
      if k :| 0 <= k < |db.rows| && db.rows[k].id == id && db.rows[k].doc == d { assert db'.rows[k] == db.rows[k]; }
      if k :| 0 <= k < |db.rows| && db'.rows[k].id == id && db'.rows[k].doc == d { assert db'.rows[k] == db.rows[k]; }
    }
  }

  lemma OneRow(db: Db, r: Row, d: Doc)
    requires Inv(db) && r in db.rows
    ensures Current(db, r.id, d) <==> d == r.doc
  {
    var t :| 0 <= t < |db.rows| && db.rows[t] == r;
  }

  /** What one request does to one document. */
  lemma KeptAfter(db: Db, op: Op, id: string, d: Doc)
    requires Inv(db) && !op.Create?
    ensures var db' := Apply(db, op).0;
            Kept(db', id, d) <==>
            match ChangeBy(db, op)
            case Nothing => Kept(db, id, d)
            case SaveOnly(saved) => Kept(db, id, d) || (op.saveOk && saved.id == id && saved.doc == d)
            case SaveAndWrite(saved, doc) =>
              || (if id == saved.id then d == doc else Current(db, id, d))
              || Recorded(db.versions, id, d)
              || (op.saveOk && saved.id == id && saved.doc == d)
  {
    ChangeIs(db, op);
    match ChangeBy(db, op)
    case Nothing =>
    case SaveOnly(saved) => RecordedGrows(db.versions, saved, op.saveOk, id, d);
    case SaveAndWrite(saved, doc) =>
      RecordedGrows(db.versions, saved, op.saveOk, id, d);
      SetDocCurrent(db, saved, doc, id, d);
  }

  lemma CreateKeeps(db: Db, op: Op, id: string, d: Doc)
    requires op.Create? && Kept(db, id, d)
    ensures Kept(Apply(db, op).0, id, d)
  {
    var db' := Apply(db, op).0;
    if k :| 0 <= k < |db.rows| && db.rows[k].id == id && db.rows[k].doc == d { assert db'.rows[k] == db.rows[k]; }
  }

  lemma RowCurrent(db: Db, r: Row)
    requires r in db.rows
    ensures Current(db, r.id, r.doc)
  {
  }

  /** One request keeps every document exactly when it is careful. */
  lemma LosslessExactly(db: Db, op: Op)
    requires Inv(db)
    ensures Lossless(db, Apply(db, op).0) <==> Careful(db, op)
  {
    var db' := Apply(db, op).0;
    if Careful(db, op) {
      forall id, d | Kept(db, id, d) ensures Kept(db', id, d) {
        if op.Create? {
          CreateKeeps(db, op, id, d);
        } else {
          KeptAfter(db, op, id, d);
          ChangeIs(db, op);
          if ChangeBy(db, op).SaveAndWrite? { OneRow(db, ChangeBy(db, op).saved, d); }
        }
      }
    } else {
      var e := ChangeBy(db, op);
      ChangeIs(db, op);
      RowCurrent(db, e.saved);
      KeptAfter(db, op, e.saved.id, e.saved.doc);
      assert Kept(db, e.saved.id, e.saved.doc) && !Kept(db', e.saved.id, e.saved.doc);
    }
  }

  /** Over any run of careful requests, every document that was ever current is current or recorded. */
  ghost predicate AllCareful(db: Db, ops: seq<Op>)
    decreases |ops|
  {
    ops == [] || (Careful(db, ops[0]) && AllCareful(Apply(db, ops[0]).0, ops[1..]))
  }

  lemma {:induction false} NothingIsLost(db: Db, ops: seq<Op>, id: string, d: Doc)
    requires Inv(db) && AllCareful(db, ops) && Kept(db, id, d)
    ensures Inv(After(db, ops)) && Kept(After(db, ops), id, d)
    decreases |ops|
  {
    if ops != [] {
      InvKept(db, ops[0]);
      LosslessExactly(db, ops[0]);
      NothingIsLost(Apply(db, ops[0]).0, ops[1..], id, d);
    }
  }

  lemma {:induction false} EverCurrent(db: Db, ops: seq<Op>, k: nat, id: string, d: Doc)
    requires Inv(db) && AllCareful(db, ops) && k <= |ops| && Current(After(db, ops[..k]), id, d)
    ensures Kept(After(db, ops), id, d)
    decreases k
  {
    if k == 0 {
      NothingIsLost(db, ops, id, d);
    } else {
      InvKept(db, ops[0]);
      assert ops[..k][1..] == ops[1..][..k - 1];
      EverCurrent(Apply(db, ops[0]).0, ops[1..], k - 1, id, d);
    }
  }

  /** In particular when the saves of its requests go through whenever their writes do. */
  lemma {:induction false} SavedRunsLoseNothing(db: Db, ops: seq<Op>)
    requires Inv(db) && forall op <- ops :: op.Create? || op.saveOk || !op.writeOk
    ensures AllCareful(db, ops)
    decreases |ops|
  {
    if ops != [] {
      InvKept(db, ops[0]);
      assert ops[0] in ops;
      SavedRunsLoseNothing(Apply(db, ops[0]).0, ops[1..]);
    }
  }

  // ---- a restore can be undone ----

  /** The row at p overwritten by doc, its own document saved first. */
  function Restored(db: Db, p: nat, doc: Doc): Db
    requires p < |db.rows|
  {
    var r := db.rows[p];
    Db(db.rows[p := r.(doc := doc)], db.versions + [Version(r.id, Count(db.versions, r.id) + 1, r.doc)])
  }

  lemma RestoreWorks(db: Db, key: string, number: int, p: nat, v: nat)
    requires Inv(db)
    requires p == Find(db.rows, key) < |db.rows| && number > 0 && v == Get(db.versions, db.rows[p].id, number) < |db.versions|
    ensures Apply(db, Op.Restore(key, number, true, true)) == (Restored(db, p, db.versions[v].doc), Done)
  {
    FindSelf(db.rows, p);
    SaveAppends(db.versions, db.rows[p], true);
    var doc := db.versions[v].doc;
    assert SetDoc(db.rows, db.rows[p].id, doc) == db.rows[p := db.rows[p].(doc := doc)];
  }

  /** The key names a policy, and the number one of its versions. */
  predicate Restorable(db: Db, key: string, number: int) {
    var p := Find(db.rows, key);
    p < |db.rows| && number > 0 && Get(db.versions, db.rows[p].id, number) < |db.versions|
  }

  lemma RestorableExactly(db: Db, key: string, number: int)
    requires Distinct(db.rows)
    ensures Apply(db, Op.Restore(key, number, true, true)).1 == Done <==> Restorable(db, key, number)
  {
    var p := Find(db.rows, key);
    if p < |db.rows| { FindSelf(db.rows, p); }
  }

  /** Restoring a version, and then the version that this restore saved, gives back the document,
      and leaves every other policy and every earlier version as it was. */
  lemma RestoreTwice(db: Db, key: string, number: int) returns (db1: Db, db2: Db)
    requires Inv(db) && Restorable(db, key, number)
    ensures Apply(db, Op.Restore(key, number, true, true)) == (db1, Done)
    ensures Apply(db1, Op.Restore(key, NextNumber(db, key), true, true)) == (db2, Done)
    ensures db2.rows == db.rows
    ensures db.versions <= db1.versions <= db2.versions && |db2.versions| == |db.versions| + 2
  {
    var p, doc := RestoreOnce(db, key, number);
    db1, db2 := Restored(db, p, doc), Restored(Restored(db, p, doc), p, db.rows[p].doc);
    RestoreBack(db, key, p, doc);
    RestoredTwice(db, p, doc);
  }

  /** The number under which the next save of the policy is recorded. */
  function NextNumber(db: Db, key: string): int
    requires Find(db.rows, key) < |db.rows|
  {
    Count(db.versions, db.rows[Find(db.rows, key)].id) + 1
  }

  lemma RestoreOnce(db: Db, key: string, number: int) returns (p: nat, doc: Doc)
    requires Inv(db) && Restorable(db, key, number)
    ensures p == Find(db.rows, key) < |db.rows|
    ensures Apply(db, Op.Restore(key, number, true, true)) == (Restored(db, p, doc), Done)
    ensures Inv(Restored(db, p, doc))
  {
    p := Find(db.rows, key);
    var v := Get(db.versions, db.rows[p].id, number);
    doc := db.versions[v].doc;
    RestoreWorks(db, key, number, p, v);
    RestoredInv(db, p, doc);
  }

  lemma RestoredInv(db: Db, p: nat, doc: Doc)
    requires Inv(db) && p < |db.rows|
    ensures Inv(Restored(db, p, doc))
  {
    var r := db.rows[p];
    SaveAppends(db.versions, r, true);
    assert Restored(db, p, doc).versions == Save(db.versions, r, true);
    RowReplaced(db.rows, p, doc);
  }

  lemma RowReplaced(rows: seq<Row>, p: nat, doc: Doc)
    requires Distinct(rows) && p < |rows|
    ensures Distinct(rows[p := rows[p].(doc := doc)])
  {
  }

  lemma RestoreBack(db: Db, key: string, p: nat, doc: Doc)
    requires p == Find(db.rows, key) < |db.rows| && Inv(db) && Inv(Restored(db, p, doc))
    ensures var db1 := Restored(db, p, doc);
            Apply(db1, Op.Restore(key, NextNumber(db, key), true, true)) == (Restored(db1, p, db.rows[p].doc), Done)
  {
    var db1, r := Restored(db, p, doc), db.rows[p];
    var n := Count(db.versions, r.id) + 1;
    RestoredNames(db, key, p, doc);
    Snapshot(db.versions, r.id, n, r.doc);
    assert db1.versions[|db.versions|] == Version(r.id, n, r.doc);
    RestoreWorks(db1, key, n, p, |db.versions|);
  }

  lemma RestoredNames(db: Db, key: string, p: nat, doc: Doc)
    requires p < |db.rows|
    ensures var db1 := Restored(db, p, doc);
            Find(db1.rows, key) == Find(db.rows, key) && db1.rows[p].id == db.rows[p].id
  {
    FindUnchanged(db.rows, Restored(db, p, doc).rows, key);
  }

  lemma RestoredTwice(db: Db, p: nat, doc: Doc)
    requires p < |db.rows|
    ensures var db1 := Restored(db, p, doc);
            var db2 := Restored(db1, p, db.rows[p].doc);
            && db2.rows == db.rows
            && db.versions <= db1.versions <= db2.versions && |db2.versions| == |db.versions| + 2
  {
    var r := db.rows[p];
    assert r.(doc := doc).(doc := r.doc) == r;
  }

  lemma Snapshot(vs: seq<Version>, id: string, n: int, d: Doc)
    requires Numbered(vs) && n == Count(vs, id) + 1
    ensures Get(vs + [Version(id, n, d)], id, n) == |vs|
  {
    NumbersUsed(vs, id, n);
    var vs' := vs + [Version(id, n, d)];
    assert vs'[|vs|] == Version(id, n, d);
    assert forall k :: 0 <= k < |vs| ==> vs'[k] == vs[k];
  }

  lemma FindUnchanged(rows: seq<Row>, rows': seq<Row>, key: string)
    requires |rows| == |rows'|
    requires forall k :: 0 <= k < |rows| ==> rows[k].id == rows'[k].id && rows[k].name == rows'[k].name
    ensures Find(rows, key) == Find(rows', key)
  {
    var i, i' := FindId(rows, key), FindId(rows', key);
    var n, n' := FindName(rows, key), FindName(rows', key);
    assert i == i' && n == n';
  }
}
