/** What each request on an elevation policy answers and changes, and each statement of
    overlapping ones, with the conditions written out over the rows and versions. */
module PolicySteps {
  import opened PolicyHistory
  import Races = PolicyRaces

  // ---- the statements ----

  /** The key names the policy at p: by its id, or by its name if no policy has that id. */
  predicate Names(rows: seq<Row>, key: string, p: nat) {
    && p < |rows|
    && (rows[p].id == key || (rows[p].name == key && forall k :: 0 <= k < |rows| ==> rows[k].id != key))
  }

  /** n is the number after the highest one that the policy has used, and 1 before any. */
  predicate IsNext(vs: seq<Version>, id: string, n: int) {
    && (forall k :: 0 <= k < |vs| && vs[k].policy == id ==> vs[k].number < n)
    && n >= 1 && (n > 1 ==> exists k :: 0 <= k < |vs| && vs[k].policy == id && vs[k].number == n - 1)
  }

  lemma {:induction false} NextIsMaxPlusOne(vs: seq<Version>, id: string)
    ensures IsNext(vs, id, MaxVersion(vs, id) + 1)
    decreases |vs|
  {
    if vs != [] {
      var front, last := vs[..|vs| - 1], vs[|vs| - 1];
      NextIsMaxPlusOne(front, id);
      var m := MaxVersion(front, id);
      if k :| 0 <= k < |front| && front[k].policy == id && front[k].number == m { assert vs[k] == front[k]; }
      assert vs[|vs| - 1] == last;
    }
  }

  lemma FindExactly(rows: seq<Row>, key: string)
    requires Distinct(rows)
    ensures forall p: nat :: Names(rows, key, p) <==> p == Find(rows, key) < |rows|
    ensures Find(rows, key) == |rows| <==> forall k :: 0 <= k < |rows| ==> rows[k].id != key && rows[k].name != key
  {
  }

  lemma GetExactly(vs: seq<Version>, id: string, number: int)
    ensures Get(vs, id, number) == |vs| <==> forall k :: 0 <= k < |vs| ==> !(vs[k].policy == id && vs[k].number == number)
  {
  }

  /** vs with a version saved: the row's document under the policy's next number. */
  predicate Saved(vs: seq<Version>, vs': seq<Version>, r: Row) {
    && |vs'| == |vs| + 1 && vs'[..|vs|] == vs
    && vs'[|vs|].policy == r.id && vs'[|vs|].doc == r.doc && IsNext(vs, r.id, vs'[|vs|].number)
  }

  lemma SaveExactly(vs: seq<Version>, r: Row, ok: bool)
    ensures var vs' := Save(vs, r, ok); if ok then Saved(vs, vs', r) else vs' == vs
  {
    NextIsMaxPlusOne(vs, r.id);
  }

  lemma OneDoc(rows: seq<Row>, p: nat, doc: Doc)
    requires Distinct(rows) && p < |rows|
    ensures SetDoc(rows, rows[p].id, doc) == rows[p := Row(rows[p].id, rows[p].name, doc)]
  {
  }

  // ---- the requests ----

  lemma CreateExactly(db: Db, id: string, name: string, body: Body)
    ensures var (db', out) := Apply(db, Create(id, name, body));
            if body == NoBody || name == "" then db' == db && out == BadRequest
            else if exists k :: 0 <= k < |db.rows| && (db.rows[k].id == id || db.rows[k].name == name)
            then db' == db && out == Conflict
            else db' == Db(db.rows + [Row(id, name, body.doc)], db.versions) && out == Done
  {
  }

  /** An update without a valid policy is refused, and so is one that names no policy.  Every
      other one saves the document it finds, if the database takes it, whether or not the write
      that follows goes through. */
  lemma UpdateExactly(db: Db, key: string, body: Body, saveOk: bool, writeOk: bool)
    requires Distinct(db.rows)
    ensures var (db', out) := Apply(db, Update(key, body, saveOk, writeOk));
            && (out == BadRequest <==> body == NoBody)
            && (out == NotFound <==> body != NoBody && forall k :: 0 <= k < |db.rows| ==>
                  db.rows[k].id != key && db.rows[k].name != key)
            && (out in {BadRequest, NotFound} ==> db' == db)
            && (out !in {BadRequest, NotFound} ==> out == if writeOk then Done else Failed)
    ensures forall p: nat :: Names(db.rows, key, p) && body != NoBody ==>
              var db' := Apply(db, Update(key, body, saveOk, writeOk)).0;
              && (if saveOk then Saved(db.versions, db'.versions, db.rows[p]) else db'.versions == db.versions)
              && db'.rows == if writeOk then db.rows[p := Row(db.rows[p].id, db.rows[p].name, body.doc)] else db.rows
  {
    FindExactly(db.rows, key);
    var p := Find(db.rows, key);
    if p < |db.rows| {
      SaveExactly(db.versions, db.rows[p], saveOk);
      if body.Body? { OneDoc(db.rows, p, body.doc); }
    }
  }

  /** A restore is refused when it names no policy, no positive number, or no version of that
      policy, in this order.  Every other one saves the current document, if the database takes
      it, and writes the version's. */
  lemma RestoreExactly(db: Db, key: string, number: int, saveOk: bool, writeOk: bool, p: nat, v: nat)
    requires Distinct(db.rows)
    ensures (forall k :: 0 <= k < |db.rows| ==> db.rows[k].id != key && db.rows[k].name != key) ==>
              Apply(db, Restore(key, number, saveOk, writeOk)) == (db, NotFound)
    ensures Names(db.rows, key, p) && number <= 0 ==>
              Apply(db, Restore(key, number, saveOk, writeOk)) == (db, BadRequest)
    ensures Names(db.rows, key, p) && number > 0 &&
            (forall k :: 0 <= k < |db.versions| ==>
               !(db.versions[k].policy == db.rows[p].id && db.versions[k].number == number)) ==>
              Apply(db, Restore(key, number, saveOk, writeOk)) == (db, NotFound)
    ensures Names(db.rows, key, p) && number > 0 && v < |db.versions| &&
            db.versions[v].policy == db.rows[p].id && db.versions[v].number == number &&
            (forall k :: 0 <= k < v ==> !(db.versions[k].policy == db.rows[p].id && db.versions[k].number == number)) ==>
              var (db', out) := Apply(db, Restore(key, number, saveOk, writeOk));
              && out == (if writeOk then Done else Failed)
              && (if saveOk then Saved(db.versions, db'.versions, db.rows[p]) else db'.versions == db.versions)
              && db'.rows == if writeOk then db.rows[p := Row(db.rows[p].id, db.rows[p].name, db.versions[v].doc)] else db.rows
  {
    FindExactly(db.rows, key);
    if Names(db.rows, key, p) {
      GetExactly(db.versions, db.rows[p].id, number);
      FindSelf(db.rows, p);
      SaveExactly(db.versions, db.rows[p], saveOk);
      if v < |db.versions| { OneDoc(db.rows, p, db.versions[v].doc); }
    }
  }

  // ---- overlapping requests, statement by statement ----

  /** The first read remembers the document; the second draws the next number as the history
      stands then. */
  lemma ReadsExactly(s: Races.State, t: nat, next: Doc)
    ensures Races.Next(s, Races.Begin(t, next)) ==
            if t in s.tasks then s else s.(tasks := s.tasks[t := Races.Task(s.cur, next, 0, false)])
    ensures var s' := Races.Next(s, Races.Number(t));
            if t in s.tasks
            then && t in s'.tasks && IsNext(s.versions, Races.POLICY, s'.tasks[t].number)
                 && s' == s.(tasks := s.tasks[t := s.tasks[t].(number := s'.tasks[t].number)])
            else s' == s
  {
    NextIsMaxPlusOne(s.versions, Races.POLICY);
  }

  /** The insert adds what was read under the number drawn, unless the database refuses it or
      the number has been used meanwhile. */
  lemma InsertExactly(s: Races.State, t: nat, ok: bool)
    ensures var s' := Races.Next(s, Races.Save(t, ok));
            if t in s.tasks && s.tasks[t].number > 0 && ok &&
               (forall k :: 0 <= k < |s.versions| ==>
                  !(s.versions[k].policy == Races.POLICY && s.versions[k].number == s.tasks[t].number))
            then s' == s.(versions := s.versions + [Version(Races.POLICY, s.tasks[t].number, s.tasks[t].read)],
                          tasks := s.tasks[t := s.tasks[t].(saved := true)])
            else s' == s
  {
    if t in s.tasks && s.tasks[t].number > 0 {
      GetExactly(s.versions, Races.POLICY, s.tasks[t].number);
      assert s.tasks[t := s.tasks[t]] == s.tasks;
    }
  }

  /** The write replaces whatever is current. */
  lemma WriteExactly(s: Races.State, t: nat, ok: bool)
    ensures Races.Next(s, Races.Write(t, ok)) ==
            if t !in s.tasks then s
            else s.(cur := if ok then s.tasks[t].next else s.cur, tasks := s.tasks - {t})
  {
  }
}
