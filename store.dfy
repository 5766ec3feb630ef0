/**
 * The target database as the migration's session sees it. The session is opened with
 * autoflush off, so a query sees the committed rows and the rows flushed since the last
 * commit, never rows that were only added. A flush sends the added rows in order, and the
 * database checks each one: a text longer than its column raises a data error, and a
 * violated NOT NULL, UNIQUE or FOREIGN KEY constraint raises an integrity error. A failed
 * flush changes nothing. A commit flushes and then makes the flushed rows permanent. A
 * rollback discards everything flushed or added since the last commit. Ids come from a
 * counter that a rollback does not rewind, as database sequences behave.
 */
module Store {

  import opened Options
  import opened Records

  /** How a flush or commit ends: without error, with `IntegrityError`, or with `DataError`. */
  datatype Outcome = Ok | IntegrityError | DataError

  // ---------------------------------------------------------------- constraints

  predicate FitsIn(s: Option<string>, width: nat) {
    s.None? || |s.value| <= width
  }

  /** Every text fits its `String(n)` column. */
  predicate WithinWidths(r: Row) {
    match r
    case CategoryRow(_, name, _) => |name| <= 100
    case UserRow(_, username, email, fullName, password, _, _, _, phone) =>
      |username| <= 50 && FitsIn(email, 120) && FitsIn(fullName, 100) && |password| <= 255 && FitsIn(phone, 20)
    case AddressRow(_, _, street, city, state, zip, country, _, _) =>
      |street| <= 255 && |city| <= 100 && FitsIn(state, 100) && |zip| <= 20 && |country| <= 100
    case ProductRow(_, name, _, _, sku, _, _, _) => |name| <= 200 && |sku| <= 50
    case OrderRow(_, _, _, _, _, _, _) => true
    case ItemRow(_, _, _, _, _) => true
  }

  predicate IsCategory(v: seq<Row>, id: nat) { exists x | x in v :: x.CategoryRow? && x.id == id }
  predicate IsUser(v: seq<Row>, id: nat) { exists x | x in v :: x.UserRow? && x.id == id }
  predicate IsAddress(v: seq<Row>, id: nat) { exists x | x in v :: x.AddressRow? && x.id == id }
  predicate IsProduct(v: seq<Row>, id: nat) { exists x | x in v :: x.ProductRow? && x.id == id }
  predicate IsOrder(v: seq<Row>, id: nat) { exists x | x in v :: x.OrderRow? && x.id == id }

  predicate NameTaken(v: seq<Row>, name: string) { exists x | x in v :: x.CategoryRow? && x.name == name }
  predicate UsernameTaken(v: seq<Row>, username: string) { exists x | x in v :: x.UserRow? && x.username == username }
  predicate EmailTaken(v: seq<Row>, email: string) { exists x | x in v :: x.UserRow? && x.email == Some(email) }
  predicate SkuTaken(v: seq<Row>, sku: string) { exists x | x in v :: x.ProductRow? && x.sku == sku }

  /**
   * The constraints of the target schema on a new row, given the rows already there:
   * unique category names, usernames, emails and SKUs; a present email; foreign keys that
   * name rows of the right table.
   */
  predicate Constraints(v: seq<Row>, r: Row) {
    match r
    case CategoryRow(_, name, _) => !NameTaken(v, name)
    case UserRow(_, username, email, _, _, _, _, _, _) =>
      email.Some? && !UsernameTaken(v, username) && !EmailTaken(v, email.value)
    case AddressRow(_, userId, _, _, _, _, _, _, _) => IsUser(v, userId)
    case ProductRow(_, _, _, _, sku, _, categoryId, _) => !SkuTaken(v, sku) && IsCategory(v, categoryId)
    case OrderRow(_, userId, _, _, shippingId, billingId, _) =>
      IsUser(v, userId) && IsAddress(v, shippingId) && IsAddress(v, billingId)
    case ItemRow(_, orderId, productId, _, _) => IsOrder(v, orderId) && IsProduct(v, productId)
  }

  /** The database's verdict on inserting `r` after the rows `v`. */
  function Check(v: seq<Row>, r: Row): (o: Outcome)
    ensures o == Ok <==> WithinWidths(r) && Constraints(v, r)
  {
    if !WithinWidths(r) then DataError
    else if !Constraints(v, r) then IntegrityError
    else Ok
  }

  /** Every row passed the database's checks when it was inserted after the rows before it. */
  predicate Consistent(v: seq<Row>)
    decreases |v|
  {
    v == [] || (Consistent(v[..|v| - 1]) && Check(v[..|v| - 1], v[|v| - 1]) == Ok)
  }

  /** The verdict on sending `pending` in order after `v`: the first error, or `Ok`. */
  function FlushOutcome(v: seq<Row>, pending: seq<Row>): Outcome
    decreases |pending|
  {
    if pending == [] then Ok
    else
      var o := Check(v, pending[0]);
      if o != Ok then o else FlushOutcome(v + [pending[0]], pending[1..])
  }

  // ---------------------------------------------------------------- the database state

  /** The committed rows, the rows flushed since, the rows only added, and the next id. */
  datatype Db = Db(committed: seq<Row>, flushed: seq<Row>, added: seq<Row>, nextId: nat)

  /** What a query sees. */
  function Visible(db: Db): seq<Row> {
    db.committed + db.flushed
  }

  /** A session opened on the rows already in the database: every id is below the counter. */
  function Opened(existing: seq<Row>, nextId: nat): Db {
    Db(existing, [], [], nextId)
  }

  /** `session.add(row)`; the id the database will give the row is returned with the state. */
  function AddRow(db: Db, r: Row): (res: (Db, nat))
    ensures res.1 == db.nextId && res.0.nextId == db.nextId + 1
    ensures res.0.committed == db.committed && res.0.flushed == db.flushed
    ensures res.0.added == db.added + [r.(id := res.1)]
  {
    (db.(added := db.added + [r.(id := db.nextId)], nextId := db.nextId + 1), db.nextId)
  }

  /** `session.flush()`: the added rows become flushed, or nothing changes and an error is raised. */
  function FlushDb(db: Db): (Db, Outcome)
  {
    var o := FlushOutcome(Visible(db), db.added);
    if o == Ok then (db.(flushed := db.flushed + db.added, added := []), Ok) else (db, o)
  }

  /** `session.commit()`: a flush, then the flushed rows are committed. */
  function CommitDb(db: Db): (Db, Outcome)
  {
    var (d, o) := FlushDb(db);
    if o == Ok then (d.(committed := d.committed + d.flushed, flushed := []), Ok) else (d, o)
  }

  /** `session.rollback()`: every row flushed or added since the last commit is gone; ids stay used. */
  function RollbackDb(db: Db): Db
  {
    db.(flushed := [], added := [])
  }

  /** A commit whose failure is answered by a rollback. */
  function CommitOrRollback(db: Db): Db
  {
    var (d, o) := CommitDb(db);
    if o == Ok then d else RollbackDb(d)
  }

  // ---------------------------------------------------------------- queries

  /** `query(ProductCategory).filter(name == name).first()`, as an id. */
  function CategoryNamed(v: seq<Row>, name: string): (r: Option<nat>)
    ensures r.Some? <==> NameTaken(v, name)
    ensures r.Some? ==> exists x | x in v :: x.CategoryRow? && x.name == name && x.id == r.value
  {
    if v == [] then None
    else if v[0].CategoryRow? && v[0].name == name then Some(v[0].id)
    else
      var r := CategoryNamed(v[1..], name);
      assert forall x | x in v[1..] :: x in v;
      assert forall x | x in v && x != v[0] :: x in v[1..];
      r
  }

  /** `query(User).filter(username == username).first()`, as an id. */
  function UserNamed(v: seq<Row>, username: string): (r: Option<nat>)
    ensures r.Some? <==> UsernameTaken(v, username)
    ensures r.Some? ==> exists x | x in v :: x.UserRow? && x.username == username && x.id == r.value
  {
    if v == [] then None
    else if v[0].UserRow? && v[0].username == username then Some(v[0].id)
    else
      var r := UserNamed(v[1..], username);
      assert forall x | x in v[1..] :: x in v;
      assert forall x | x in v && x != v[0] :: x in v[1..];
      r
  }

  /** `query(Product).filter(sku == sku).first()`, as an id. */
  function ProductWithSku(v: seq<Row>, sku: string): (r: Option<nat>)
    ensures r.Some? <==> SkuTaken(v, sku)
    ensures r.Some? ==> exists x | x in v :: x.ProductRow? && x.sku == sku && x.id == r.value
  {
    if v == [] then None
    else if v[0].ProductRow? && v[0].sku == sku then Some(v[0].id)
    else
      var r := ProductWithSku(v[1..], sku);
      assert forall x | x in v[1..] :: x in v;
      assert forall x | x in v && x != v[0] :: x in v[1..];
      r
  }

  /** The addresses of a user, in the order they were inserted. */
  function AddressesOf(v: seq<Row>, userId: nat): (r: seq<Row>)
    ensures forall a | a in r :: a in v && a.AddressRow? && a.userId == userId
    ensures forall a | a in v && a.AddressRow? && a.userId == userId :: a in r
  {
    if v == [] then []
    else
      var rest := AddressesOf(v[1..], userId);
      assert forall x | x in v[1..] :: x in v;
      assert forall x | x in v && x != v[0] :: x in v[1..];
      if v[0].AddressRow? && v[0].userId == userId then [v[0]] + rest else rest
  }

  /** `{u.username: u for u in query(User).all()}`, as ids: a later row overrides an earlier one. */
  function UsersByUsername(v: seq<Row>): (m: map<string, nat>)
    ensures forall name | name in m :: exists x | x in v :: x.UserRow? && x.username == name && x.id == m[name]
    ensures forall x | x in v && x.UserRow? :: x.username in m
  {
    if v == [] then map[]
    else
      var m := UsersByUsername(v[..|v| - 1]);
      var last := v[|v| - 1];
      assert forall x | x in v[..|v| - 1] :: x in v;
      assert forall x | x in v && x != last :: x in v[..|v| - 1];
      if last.UserRow? then m[last.username := last.id] else m
  }

  // ---------------------------------------------------------------- what the checks guarantee

  /** A flush that succeeds leaves the visible rows consistent. */
  lemma {:induction false} FlushOutcomeOk(v: seq<Row>, pending: seq<Row>)
    requires Consistent(v) && FlushOutcome(v, pending) == Ok
    ensures Consistent(v + pending)
    decreases |pending|
  {
    if pending == [] {
      assert v + pending == v;
      return;
    }
    var w := v + [pending[0]];
    FlushOutcomeStep(v, pending);
    ConsistentSnoc(v, pending[0]);
    FlushOutcomeOk(w, pending[1..]);
    SnocRest(v, pending);
  }

  lemma SnocRest(v: seq<Row>, pending: seq<Row>)
    requires pending != []
    ensures v + [pending[0]] + pending[1..] == v + pending
  {
    assert [pending[0]] + pending[1..] == pending;
  }

  lemma FlushOutcomeStep(v: seq<Row>, pending: seq<Row>)
    requires pending != [] && FlushOutcome(v, pending) == Ok
    ensures Check(v, pending[0]) == Ok && FlushOutcome(v + [pending[0]], pending[1..]) == Ok
  {
  }

  lemma ConsistentSnoc(v: seq<Row>, r: Row)
    requires Consistent(v) && Check(v, r) == Ok
    ensures Consistent(v + [r])
  {
    assert (v + [r])[..|v|] == v;
  }

  /** Consistency is kept by every prefix. */
  lemma {:induction false} ConsistentPrefix(v: seq<Row>, k: nat)
    requires Consistent(v) && k <= |v|
    ensures Consistent(v[..k])
    decreases |v| - k
  {
    if k < |v| {
      ConsistentPrefix(v, k + 1);
      assert v[..k + 1][..k] == v[..k];
    } else {
      assert v[..k] == v;
    }
  }

  /** Each row of consistent rows passed the checks against the rows before it. */
  lemma ConsistentAt(v: seq<Row>, i: nat)
    requires Consistent(v) && i < |v|
    ensures Check(v[..i], v[i]) == Ok
  {
    ConsistentPrefix(v, i + 1);
    assert v[..i + 1][..i] == v[..i];
  }

  /** Flush, commit and rollback keep the rows a query sees consistent. */
  lemma SessionKeepsConsistent(db: Db)
    requires Consistent(Visible(db))
    ensures Consistent(Visible(FlushDb(db).0))
    ensures Consistent(Visible(CommitDb(db).0))
    ensures Consistent(Visible(RollbackDb(db)))
    ensures Consistent(Visible(CommitOrRollback(db)))
  {
    FlushKeepsConsistent(db);
    CommitKeepsConsistent(db);
    RollbackKeepsConsistent(db);
    RollbackKeepsConsistent(CommitDb(db).0);
  }

  lemma FlushKeepsConsistent(db: Db)
    requires Consistent(Visible(db))
    ensures Consistent(Visible(FlushDb(db).0))
  {
    if FlushOutcome(Visible(db), db.added) == Ok {
      FlushOutcomeOk(Visible(db), db.added);
      assert Visible(FlushDb(db).0) == Visible(db) + db.added;
    }
  }

  lemma CommitKeepsConsistent(db: Db)
    requires Consistent(Visible(db))
    ensures Consistent(Visible(CommitDb(db).0))
  {
    FlushKeepsConsistent(db);
    var d := FlushDb(db).0;
    assert Visible(CommitDb(db).0) == Visible(d);
  }

  lemma RollbackKeepsConsistent(db: Db)
    requires Consistent(Visible(db))
    ensures Consistent(Visible(RollbackDb(db)))
  {
    ConsistentPrefix(Visible(db), |db.committed|);
    assert Visible(db)[..|db.committed|] == db.committed == Visible(RollbackDb(db));
  }

  /** A rollback leaves the committed rows as they were and nothing pending. */
  lemma RollbackDiscardsPending(db: Db)
    ensures Visible(RollbackDb(db)) == db.committed && RollbackDb(db).added == []
    ensures Visible(CommitOrRollback(db)) == db.committed || CommitOrRollback(db).committed == Visible(db) + db.added
  {
  }

  /** In consistent rows no two categories share a name. */
  lemma UniqueCategoryNames(v: seq<Row>)
    requires Consistent(v)
    ensures forall i, j | 0 <= i < j < |v| && v[i].CategoryRow? && v[j].CategoryRow? :: v[i].name != v[j].name
  {
    forall i, j | 0 <= i < j < |v| && v[i].CategoryRow? && v[j].CategoryRow?
      ensures v[i].name != v[j].name
    {
      ConsistentAt(v, j);
      assert v[i] in v[..j];
    }
  }

  /** In consistent rows no two users share a username or an email, and every user has an email. */
  lemma UniqueUsers(v: seq<Row>)
    requires Consistent(v)
    ensures forall i | 0 <= i < |v| && v[i].UserRow? :: v[i].email.Some?
    ensures forall i, j | 0 <= i < j < |v| && v[i].UserRow? && v[j].UserRow? ::
      v[i].username != v[j].username && v[i].email != v[j].email
  {
    forall i | 0 <= i < |v| && v[i].UserRow? ensures v[i].email.Some? {
      ConsistentAt(v, i);
    }
    forall i, j | 0 <= i < j < |v| && v[i].UserRow? && v[j].UserRow?
      ensures v[i].username != v[j].username && v[i].email != v[j].email
    {
      ConsistentAt(v, j);
      assert v[i] in v[..j];
    }
  }

  /** In consistent rows no two products share a SKU. */
  lemma UniqueSkus(v: seq<Row>)
    requires Consistent(v)
    ensures forall i, j | 0 <= i < j < |v| && v[i].ProductRow? && v[j].ProductRow? :: v[i].sku != v[j].sku
  {
    forall i, j | 0 <= i < j < |v| && v[i].ProductRow? && v[j].ProductRow?
      ensures v[i].sku != v[j].sku
    {
      ConsistentAt(v, j);
      assert v[i] in v[..j];
    }
  }

  lemma IsUserGrows(u: seq<Row>, v: seq<Row>, id: nat)
    requires IsUser(u, id) && forall x | x in u :: x in v
    ensures IsUser(v, id)
  {
  }

  /** In consistent rows every foreign key names an earlier row of its table. */
  lemma ForeignKeysResolve(v: seq<Row>)
    requires Consistent(v)
    ensures forall i | 0 <= i < |v| && v[i].AddressRow? :: IsUser(v, v[i].userId)
    ensures forall i | 0 <= i < |v| && v[i].ProductRow? :: IsCategory(v, v[i].categoryId)
    ensures forall i | 0 <= i < |v| && v[i].OrderRow? ::
      IsUser(v, v[i].userId) && IsAddress(v, v[i].shippingId) && IsAddress(v, v[i].billingId)
    ensures forall i | 0 <= i < |v| && v[i].ItemRow? :: IsOrder(v, v[i].orderId) && IsProduct(v, v[i].productId)
  {
    forall i | 0 <= i < |v|
      ensures v[i].AddressRow? ==> IsUser(v, v[i].userId)
      ensures v[i].ProductRow? ==> IsCategory(v, v[i].categoryId)
      ensures v[i].OrderRow? ==> IsUser(v, v[i].userId) && IsAddress(v, v[i].shippingId) && IsAddress(v, v[i].billingId)
      ensures v[i].ItemRow? ==> IsOrder(v, v[i].orderId) && IsProduct(v, v[i].productId)
    {
      ConsistentAt(v, i);
      assert forall x | x in v[..i] :: x in v;
    }
  }

  // ---------------------------------------------------------------- the session object

  /** The session on the target database. */
  class Session {
    var committed: seq<Row>
    var flushed: seq<Row>
    var added: seq<Row>
    var nextId: nat

    function State(): Db
      reads this
    {
      Db(committed, flushed, added, nextId)
    }

    constructor (existing: seq<Row>, firstId: nat)
      ensures State() == Opened(existing, firstId)
    {
      committed, flushed, added, nextId := existing, [], [], firstId;
    }

    method Add(r: Row) returns (id: nat)
      modifies this
      ensures (State(), id) == AddRow(old(State()), r)
    {
      id := nextId;
      added := added + [r.(id := id)];
      nextId := nextId + 1;
    }

    method Flush() returns (outcome: Outcome)
      modifies this
      ensures (State(), outcome) == FlushDb(old(State()))
    {
      outcome := FlushOutcome(committed + flushed, added);
      if outcome == Ok {
        flushed, added := flushed + added, [];
      }
    }

    method Commit() returns (outcome: Outcome)
      modifies this
      ensures (State(), outcome) == CommitDb(old(State()))
    {
      outcome := Flush();
      if outcome == Ok {
        committed, flushed := committed + flushed, [];
      }
    }

    method Rollback()
      modifies this
      ensures State() == RollbackDb(old(State()))
    {
      flushed, added := [], [];
    }

    function Visible(): seq<Row>
      reads this
    {
      committed + flushed
    }
  }
}
