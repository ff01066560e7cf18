/**
 * The evaluation cache (src/libexpr/eval-cache.cc): a table of rows keyed by
 * (parent row, name), and any number of cursors that remember row ids which
 * other cursors may have replaced since.
 */
module EvalCache {
  import opened Basics

  type Path = seq<Name>
  type AttrId = nat
  type AttrKey = (AttrId, Name)

  /** What evaluating an attribute to weak head normal form yields. */
  datatype Outcome =
    | Fails
    | StrVal(s: string)
    | PathVal(abs: string, shown: string)  // `path.abs()` and `path.to_string()`
    | BoolVal(b: bool)
    | IntVal(n: int)
    | SetVal(names: set<Name>)
    | OtherVal

  /** Deterministic evaluation: the outcome at every attribute path. */
  type Truth = Path -> Outcome

  /** The `type` and `value` columns of a row. */
  datatype Content = Placeholder | FullAttrs | String(s: string) | Missing | Misc | Failed | Bool(b: bool) | Int(n: int)

  datatype Row = Row(id: AttrId, content: Content)

  /** `AttrValue`: what a cursor remembers. */
  datatype AttrValue =
    | VAttrs(names: set<Name>) | VString(s: string) | VPlaceholder | VMissing | VMisc | VFailed
    | VBool(b: bool) | VInt(n: int)

  datatype Cursor = Cursor(parent: Option<(nat, Name)>, path: Path, cached: Option<(AttrId, AttrValue)>)

  /** Ghost record of what a row id was allocated for. */
  datatype Entry = Entry(path: Path, content: Content)

  datatype Error = CachedFailure(path: Path) | EvalFailed(path: Path) | NotThatType(path: Path)

  /** The conversion of `setInt`'s parameter to a C int. */
  function CInt(n: int): int { (n + 0x8000_0000) % 0x1_0000_0000 - 0x8000_0000 }

  predicate FitsCInt(n: int) { -0x8000_0000 <= n < 0x8000_0000 }

  predicate Exists(truth: Truth, path: Path) {
    path == [] || (Exists(truth, path[..|path| - 1]) && HasAttr(truth, path[..|path| - 1], path[|path| - 1]))
  }

  predicate HasAttr(truth: Truth, path: Path, name: Name) {
    truth(path).SetVal? && name in truth(path).names
  }

  lemma ExistsChild(truth: Truth, path: Path, name: Name)
    ensures Exists(truth, path + [name]) <==> Exists(truth, path) && HasAttr(truth, path, name)
  {
    assert (path + [name])[..|path|] == path;
  }

  // ---------- the invariant of the table ----------

  /** A row says something true about evaluation at its path. */
  predicate Faithful(truth: Truth, path: Path, c: Content) {
    match c
    case Missing =>
      && path != [] && Exists(truth, path[..|path| - 1])
      && truth(path[..|path| - 1]).SetVal? && path[|path| - 1] !in truth(path[..|path| - 1]).names
    case Placeholder => Exists(truth, path)
    case FullAttrs => Exists(truth, path) && truth(path).SetVal?
    case String(s) =>
      Exists(truth, path) && (truth(path) == StrVal(s) || (truth(path).PathVal? && truth(path).abs == s))
    case Misc => Exists(truth, path) && truth(path).OtherVal?
    case Failed => Exists(truth, path) && truth(path).Fails?
    case Bool(b) => Exists(truth, path) && truth(path) == BoolVal(b)
    case Int(n) => Exists(truth, path) && truth(path).IntVal? && n == CInt(truth(path).n)
  }

  /** The attribute path a key stands for. */
  function KeyPath(log: map<AttrId, Entry>, key: AttrKey): Option<Path> {
    if key.0 == 0 then if key.1 == "" then Some([]) else None
    else if key.0 in log then Some(log[key.0].path + [key.1]) else None
  }

  predicate RowOk(log: map<AttrId, Entry>, key: AttrKey, row: Row) {
    row.id in log && log[row.id].content == row.content && KeyPath(log, key) == Some(log[row.id].path)
  }

  ghost predicate ChildrenAre(rows: map<AttrKey, Row>, id: AttrId, names: set<Name>) {
    forall n :: (id, n) in rows <==> n in names
  }

  /** Only children of one row were written. */
  ghost predicate OthersKept(rows: map<AttrKey, Row>, rows': map<AttrKey, Row>, id: AttrId) {
    forall k :: k in rows && k.0 != id ==> k in rows' && rows'[k] == rows[k]
  }

  /** The table is consistent; the children of the rows in `pending` are still being written. */
  ghost predicate DbOk(truth: Truth, rows: map<AttrKey, Row>, log: map<AttrId, Entry>, lastId: AttrId,
                       pending: set<AttrId>) {
    && (forall k :: k in rows ==> RowOk(log, k, rows[k]))
    && (forall id :: id in log ==> 1 <= id <= lastId && Faithful(truth, log[id].path, log[id].content))
    && (forall id :: id in log && id !in pending && log[id].content.FullAttrs? ==>
          ChildrenAre(rows, id, truth(log[id].path).names))
  }

  /** A new child of a complete `FullAttrs` row must be one of the set's attributes. */
  predicate KeyAllowed(truth: Truth, log: map<AttrId, Entry>, key: AttrKey, pending: set<AttrId>) {
    key.0 in log && key.0 !in pending && log[key.0].content.FullAttrs? ==> HasAttr(truth, log[key.0].path, key.1)
  }

  /** `insert or replace`: the row gets a fresh, larger id and the table stays consistent. */
  lemma InsertOk(truth: Truth, rows: map<AttrKey, Row>, log: map<AttrId, Entry>, lastId: AttrId, pending: set<AttrId>,
                 key: AttrKey, path: Path, content: Content)
    requires DbOk(truth, rows, log, lastId, pending)
    requires KeyPath(log, key) == Some(path) && Faithful(truth, path, content)
    requires KeyAllowed(truth, log, key, pending)
    ensures DbOk(truth, rows[key := Row(lastId + 1, content)], log[lastId + 1 := Entry(path, content)], lastId + 1,
                 if content.FullAttrs? then pending + {lastId + 1} else pending)
  {
    var id := lastId + 1;
    var rows', log' := rows[key := Row(id, content)], log[id := Entry(path, content)];
    assert id !in log;
    forall k | k in rows' ensures RowOk(log', k, rows'[k]) {
      if k != key { assert RowOk(log, k, rows[k]); }
    }
    forall j | j in log' && j !in pending && j != id && log'[j].content.FullAttrs?
      ensures ChildrenAre(rows', j, truth(log'[j].path).names)
    {
      assert ChildrenAre(rows, j, truth(log[j].path).names);
    }
  }

  /** A fresh id has no children. */
  lemma KeysAreOld(truth: Truth, rows: map<AttrKey, Row>, log: map<AttrId, Entry>, lastId: AttrId)
    requires DbOk(truth, rows, log, lastId, {})
    ensures forall k :: k in rows ==> k.0 <= lastId
    ensures forall k: AttrKey :: KeyPath(log, k).Some? ==> k.0 <= lastId
  {
    forall k | k in rows ensures k.0 <= lastId { assert RowOk(log, k, rows[k]); }
  }

  // ---------- the invariant of the cursors ----------

  /** What a cursor remembers is what the id was allocated with, up to the width of integers. */
  predicate Matches(truth: Truth, path: Path, c: Content, v: AttrValue) {
    match v
    case VAttrs(names) => c.FullAttrs? && truth(path) == SetVal(names)
    case VString(s) => c == String(s)
    case VPlaceholder => c.Placeholder?
    case VMissing => c.Missing?
    case VMisc => c.Misc?
    case VFailed => c.Failed?
    case VBool(b) => c == Bool(b)
    case VInt(n) => c == Int(n) || (c == Int(CInt(n)) && truth(path) == IntVal(n))
  }

  predicate CursorOk(truth: Truth, useDb: bool, log: map<AttrId, Entry>, cursors: seq<Cursor>, i: nat)
    requires i < |cursors|
  {
    var c := cursors[i];
    && Exists(truth, c.path)
    && (match c.parent
        case None => c.path == []
        case Some((p, n)) =>
          && p < i && c.path == cursors[p].path + [n] && HasAttr(truth, cursors[p].path, n)
          && (useDb ==> cursors[p].cached.Some?))
    && (c.cached.Some? ==>
          && useDb && c.cached.value.0 in log
          && log[c.cached.value.0].path == c.path
          && Matches(truth, c.path, log[c.cached.value.0].content, c.cached.value.1))
  }

  ghost predicate CursorsOk(truth: Truth, useDb: bool, log: map<AttrId, Entry>, cursors: seq<Cursor>) {
    forall i :: 0 <= i < |cursors| ==> CursorOk(truth, useDb, log, cursors, i)
  }

  /** Ids keep what they were allocated with. */
  ghost predicate LogKept(log: map<AttrId, Entry>, log': map<AttrId, Entry>) {
    forall id :: id in log ==> id in log' && log'[id] == log[id]
  }

  /** Stale ids stay harmless: cursors survive any insertion. */
  lemma CursorsSurvive(truth: Truth, useDb: bool, log: map<AttrId, Entry>, log': map<AttrId, Entry>,
                       cursors: seq<Cursor>)
    requires CursorsOk(truth, useDb, log, cursors) && LogKept(log, log')
    ensures CursorsOk(truth, useDb, log', cursors)
  {
    forall i | 0 <= i < |cursors| ensures CursorOk(truth, useDb, log', cursors, i) {
      assert CursorOk(truth, useDb, log, cursors, i);
    }
  }

  /** A cursor may replace what it remembers by another true pair. */
  lemma RememberOk(truth: Truth, log: map<AttrId, Entry>, cursors: seq<Cursor>, i: nat, id: AttrId, v: AttrValue)
    requires CursorsOk(truth, true, log, cursors) && i < |cursors|
    requires id in log && log[id].path == cursors[i].path && Matches(truth, cursors[i].path, log[id].content, v)
    ensures CursorsOk(truth, true, log, cursors[i := cursors[i].(cached := Some((id, v)))])
  {
    var cursors' := cursors[i := cursors[i].(cached := Some((id, v)))];
    forall j | 0 <= j < |cursors'| ensures CursorOk(truth, true, log, cursors', j) {
      assert CursorOk(truth, true, log, cursors, j);
    }
  }

  /** A new cursor for an existing child. */
  lemma AppendOk(truth: Truth, useDb: bool, log: map<AttrId, Entry>, cursors: seq<Cursor>, c: Cursor)
    requires CursorsOk(truth, useDb, log, cursors)
    requires CursorOk(truth, useDb, log, cursors + [c], |cursors|)
    ensures CursorsOk(truth, useDb, log, cursors + [c])
  {
    forall j | 0 <= j < |cursors + [c]| ensures CursorOk(truth, useDb, log, cursors + [c], j) {
      if j < |cursors| { assert CursorOk(truth, useDb, log, cursors, j); }
    }
  }

  /** Cursors are only added, and keep their place in the tree. */
  ghost predicate CursorsKept(cursors: seq<Cursor>, cursors': seq<Cursor>) {
    && |cursors| <= |cursors'|
    && forall i :: 0 <= i < |cursors| ==> cursors'[i].path == cursors[i].path && cursors'[i].parent == cursors[i].parent
  }

  /** What a faithful row below an existing set says about the attribute. */
  lemma ChildFacts(truth: Truth, path: Path, name: Name, c: Content)
    requires Faithful(truth, path + [name], c)
    ensures c.Missing? ==> truth(path).SetVal? && name !in truth(path).names
    ensures !c.Missing? ==> HasAttr(truth, path, name)
    ensures c.Failed? ==> truth(path + [name]).Fails?
  {
    assert (path + [name])[..|path|] == path;
    ExistsChild(truth, path, name);
  }

  /** What a remembered value says about evaluation at the cursor's path. */
  predicate ValueFacts(truth: Truth, path: Path, v: AttrValue) {
    match v
    case VAttrs(names) => truth(path) == SetVal(names)
    case VString(s) => truth(path) == StrVal(s) || (truth(path).PathVal? && truth(path).abs == s)
    case VPlaceholder => false
    case VMissing => false
    case VMisc => truth(path).OtherVal?
    case VFailed => false
    case VBool(b) => truth(path) == BoolVal(b)
    case VInt(n) => truth(path).IntVal? && (n == truth(path).n || n == CInt(truth(path).n))
  }

  lemma PrefixesOnPath(path: Path, rest: Path, k: nat)
    requires k < |rest|
    ensures OnPath(path, rest, path + rest[..k]) && OnPath(path, rest, path + rest[..k] + [rest[k]])
  {
    assert path + rest == path + rest[..k] + rest[k..];
    assert path + rest == path + rest[..k] + [rest[k]] + rest[k + 1..];
  }

  // ---------- reading and writing rows ----------

  /** `AttrDb::getAttr`; the names of a `FullAttrs` row are those of its child rows. */
  function ReadRow(rows: map<AttrKey, Row>, key: AttrKey): Option<(AttrId, AttrValue)> {
    if key !in rows then None
    else
      var row := rows[key];
      var v := match row.content
               case Placeholder => VPlaceholder
               case FullAttrs => VAttrs(set k | k in rows && k.0 == row.id :: k.1)
               case String(s) => VString(s)
               case Missing => VMissing
               case Misc => VMisc
               case Failed => VFailed
               case Bool(b) => VBool(b)
               case Int(n) => VInt(n);
      Some((row.id, v))
  }

  /** The key of a cursor's row, through the row its parent remembers. */
  function KeyOf(cursors: seq<Cursor>, c: nat): AttrKey
    requires c < |cursors|
  {
    match cursors[c].parent
    case None => (0, "")
    case Some((p, name)) =>
      if p < |cursors| && cursors[p].cached.Some? then (cursors[p].cached.value.0, name) else (0, name)
  }

  /** What the cursor remembers or would read. */
  function Loaded(rows: map<AttrKey, Row>, cursors: seq<Cursor>, c: nat): Option<(AttrId, AttrValue)>
    requires c < |cursors|
  {
    if cursors[c].cached.Some? then cursors[c].cached else ReadRow(rows, KeyOf(cursors, c))
  }

  /** Nothing is known about the value yet. */
  predicate Unknown(cached: Option<(AttrId, AttrValue)>) { cached.None? || cached.value.1.VPlaceholder? }

  /** The row that `forceValue` writes for a value that is not a set. */
  function Stored(v: Outcome): Content
    requires !v.SetVal?
  {
    match v
    case Fails => Failed
    case StrVal(s) => String(s)
    case PathVal(abs, _) => String(abs)
    case BoolVal(b) => Bool(b)
    case IntVal(n) => Int(CInt(n))
    case OtherVal => Misc
  }

  /** What the cursor remembers of it: the integer in full. */
  function Recalled(v: Outcome): AttrValue
    requires !v.SetVal?
  {
    match v
    case Fails => VFailed
    case StrVal(s) => VString(s)
    case PathVal(abs, _) => VString(abs)
    case BoolVal(b) => VBool(b)
    case IntVal(n) => VInt(n)
    case OtherVal => VMisc
  }

  /** What another cursor reads from the row: the integer as a C int. */
  function ReadBack(v: Outcome): AttrValue
    requires !v.SetVal?
  {
    if v.IntVal? then VInt(CInt(v.n)) else Recalled(v)
  }

  // ---------- the row that a new cursor finds ----------

  /** The key of an attribute path, going down from the root's row. */
  function KeyAt(rows: map<AttrKey, Row>, path: Path): Option<AttrKey>
    decreases |path|, 0
  {
    if path == [] then Some((0, ""))
    else
      match RowAt(rows, path[..|path| - 1])
      case None => None
      case Some(row) => Some((row.id, path[|path| - 1]))
  }

  function RowAt(rows: map<AttrKey, Row>, path: Path): Option<Row>
    decreases |path|, 1
  {
    match KeyAt(rows, path)
    case None => None
    case Some(key) => if key in rows then Some(rows[key]) else None
  }

  /** Rows were only added, with fresh ids, to say that an attribute exists or is missing. */
  ghost predicate RowsAdded(rows: map<AttrKey, Row>, rows': map<AttrKey, Row>, lastId: AttrId) {
    && (forall k :: k in rows ==> k in rows' && rows'[k] == rows[k])
    && (forall k :: k in rows' && k !in rows ==>
          rows'[k].id > lastId && (rows'[k].content.Placeholder? || rows'[k].content.Missing?))
  }

  lemma AddedTwice(a: map<AttrKey, Row>, b: map<AttrKey, Row>, c: map<AttrKey, Row>, lastId: AttrId, lastId': AttrId)
    requires RowsAdded(a, b, lastId) && RowsAdded(b, c, lastId') && lastId <= lastId'
    ensures RowsAdded(a, c, lastId)
  {
    forall k | k in c && k !in a
      ensures c[k].id > lastId && (c[k].content.Placeholder? || c[k].content.Missing?)
    {
      if k in b { assert c[k] == b[k]; }
    }
  }

  /** Old keys refer to old rows. */
  predicate KeysOld(rows: map<AttrKey, Row>, lastId: AttrId) { forall k :: k in rows ==> k.0 <= lastId }

  /** Additions leave the rows found as they are; what is found newly is an addition. */
  lemma {:induction false} RowAtAdded(rows: map<AttrKey, Row>, rows': map<AttrKey, Row>, lastId: AttrId, path: Path)
    requires RowsAdded(rows, rows', lastId) && KeysOld(rows, lastId)
    ensures KeyAt(rows, path).Some? ==> KeyAt(rows', path) == KeyAt(rows, path)
    ensures RowAt(rows, path).Some? ==> RowAt(rows', path) == RowAt(rows, path)
    ensures RowAt(rows, path).None? && RowAt(rows', path).Some? ==>
              var row := RowAt(rows', path).value;
              row.id > lastId && (row.content.Placeholder? || row.content.Missing?)
    decreases |path|
  {
    if path != [] { RowAtAdded(rows, rows', lastId, path[..|path| - 1]); }
  }

  /** The row found for a path was allocated for it. */
  lemma {:induction false} RowAtPath(truth: Truth, rows: map<AttrKey, Row>, log: map<AttrId, Entry>, lastId: AttrId,
                                     path: Path)
    requires DbOk(truth, rows, log, lastId, {})
    ensures KeyAt(rows, path).Some? ==> KeyPath(log, KeyAt(rows, path).value) == Some(path)
    ensures RowAt(rows, path).Some? ==>
              var row := RowAt(rows, path).value; row.id in log && log[row.id] == Entry(path, row.content)
    decreases |path|
  {
    if path != [] {
      var init := path[..|path| - 1];
      RowAtPath(truth, rows, log, lastId, init);
      assert path == init + [path[|path| - 1]];
    }
    if RowAt(rows, path).Some? {
      var key := KeyAt(rows, path).value;
      assert RowOk(log, key, rows[key]);
    }
  }

  /** Writing the row of a longer path leaves those of shorter ones. */
  lemma {:induction false} RowAtOther(truth: Truth, rows: map<AttrKey, Row>, log: map<AttrId, Entry>, lastId: AttrId,
                                      key: AttrKey, row: Row, long: Path, path: Path)
    requires DbOk(truth, rows, log, lastId, {}) && KeyPath(log, key) == Some(long) && |path| < |long|
    ensures RowAt(rows[key := row], path) == RowAt(rows, path)
    decreases |path|
  {
    if path != [] { RowAtOther(truth, rows, log, lastId, key, row, long, path[..|path| - 1]); }
    RowAtPath(truth, rows, log, lastId, path);
  }

  /** The row written last is the row found. */
  lemma RowAtWritten(truth: Truth, rows: map<AttrKey, Row>, log: map<AttrId, Entry>, lastId: AttrId,
                     path: Path, row: Row)
    requires DbOk(truth, rows, log, lastId, {}) && KeyAt(rows, path).Some?
    ensures RowAt(rows[KeyAt(rows, path).value := row], path) == Some(row)
  {
    var key := KeyAt(rows, path).value;
    RowAtPath(truth, rows, log, lastId, path);
    if path != [] { RowAtOther(truth, rows, log, lastId, key, row, path, path[..|path| - 1]); }
  }

  /** There is a row, and it is more than a placeholder. */
  predicate HoldsValue(row: Option<Row>) { row.Some? && !row.value.content.Placeholder? }

  /** Such a row, for a value that is not a set, is the one that evaluation writes. */
  lemma RowIsStored(truth: Truth, rows: map<AttrKey, Row>, log: map<AttrId, Entry>, lastId: AttrId, path: Path)
    requires DbOk(truth, rows, log, lastId, {}) && Exists(truth, path) && !truth(path).SetVal?
    ensures HoldsValue(RowAt(rows, path)) ==> RowAt(rows, path).value.content == Stored(truth(path))
  {
    RowAtPath(truth, rows, log, lastId, path);
    if HoldsValue(RowAt(rows, path)) {
      assert Faithful(truth, path, RowAt(rows, path).value.content);
    }
  }

  /** After rows were only added, reading the row of a path yields a value exactly if its row held one before. */
  lemma VisitedRow(rows0: map<AttrKey, Row>, rows: map<AttrKey, Row>, lastId0: AttrId, path: Path, v: Outcome)
    requires RowsAdded(rows0, rows, lastId0) && KeysOld(rows0, lastId0) && KeyAt(rows, path).Some? && !v.SetVal?
    requires HoldsValue(RowAt(rows, path)) ==> RowAt(rows, path).value.content == Stored(v)
    ensures Unknown(ReadRow(rows, KeyAt(rows, path).value)) <==> !HoldsValue(RowAt(rows0, path))
    ensures HoldsValue(RowAt(rows0, path)) ==>
              HoldsValue(RowAt(rows, path)) && ReadRow(rows, KeyAt(rows, path).value).value.1 == ReadBack(v)
  {
    RowAtAdded(rows0, rows, lastId0, path);
  }

  /** The row of a path holds its value after it was asked for, known or not. */
  lemma AfterAsk(truth: Truth, rows: map<AttrKey, Row>, rows': map<AttrKey, Row>, log: map<AttrId, Entry>,
                 lastId: AttrId, lastId': AttrId, path: Path, key: AttrKey, known: bool)
    requires DbOk(truth, rows, log, lastId, {}) && KeyAt(rows, path) == Some(key) && !truth(path).SetVal?
    requires known ==> HoldsValue(RowAt(rows, path)) && rows' == rows
    requires !known ==> rows' == rows[key := Row(lastId', Stored(truth(path)))]
    ensures HoldsValue(RowAt(rows', path))
  {
    RowAtWritten(truth, rows, log, lastId, path, Row(lastId', Stored(truth(path))));
  }

  // ---------- agreement with the uncached run ----------

  /** A failure of the attribute itself, raised by the cache or by evaluation. */
  predicate FailureAt(useDb: bool, path: Path, e: Error) {
    e == EvalFailed(path) || (useDb && e == CachedFailure(path))
  }

  predicate StringAgrees(truth: Truth, useDb: bool, path: Path, r: Result<string, Error>) {
    match truth(path)
    case Fails => r.Failure? && FailureAt(useDb, path, r.error)
    case StrVal(s) => r == Success(s)
    case PathVal(abs, shown) => r == Success(shown) || (useDb && r == Success(abs))
    case _ => r == Failure(NotThatType(path))
  }

  predicate BoolAgrees(truth: Truth, useDb: bool, path: Path, r: Result<bool, Error>) {
    match truth(path)
    case Fails => r.Failure? && FailureAt(useDb, path, r.error)
    case BoolVal(b) => r == Success(b)
    case _ => r == Failure(NotThatType(path))
  }

  predicate IntAgrees(truth: Truth, useDb: bool, path: Path, r: Result<int, Error>) {
    match truth(path)
    case Fails => r.Failure? && FailureAt(useDb, path, r.error)
    case IntVal(n) => r == Success(n) || (useDb && r == Success(CInt(n)))
    case _ => r == Failure(NotThatType(path))
  }

  predicate NamesAgree(truth: Truth, useDb: bool, path: Path, r: Result<set<Name>, Error>) {
    match truth(path)
    case Fails => r.Failure? && FailureAt(useDb, path, r.error)
    case SetVal(names) => r == Success(names)
    case _ => r == Failure(NotThatType(path))
  }

  /** The child exists or not as evaluation says; a cached failure of the child may be raised already here. */
  predicate ChildAgrees(truth: Truth, useDb: bool, path: Path, name: Name, r: Result<Option<Path>, Error>) {
    match truth(path)
    case Fails => r.Failure? && FailureAt(useDb, path, r.error)
    case SetVal(names) =>
      if name !in names then r == Success(None)
      else || r == Success(Some(path + [name]))
           || (useDb && r == Failure(CachedFailure(path + [name])) && truth(path + [name]).Fails?)
    case _ => r == Success(None)
  }

  /** What walking a path finds without a cache: the end of the path, a missing name, or the error met on the way. */
  function Walk(truth: Truth, path: Path, rest: Path): Result<Option<Path>, Error>
    decreases |rest|
  {
    if rest == [] then Success(Some(path))
    else
      match truth(path)
      case Fails => Failure(EvalFailed(path))
      case SetVal(names) => if rest[0] in names then Walk(truth, path + [rest[0]], rest[1..]) else Success(None)
      case _ => Failure(NotThatType(path))
  }

  /** One name of the walk. */
  lemma WalkStep(truth: Truth, path: Path, rest: Path, k: nat)
    requires k < |rest| && Walk(truth, path, rest) == Walk(truth, path + rest[..k], rest[k..])
    ensures path + rest[..k + 1] == path + rest[..k] + [rest[k]]
    ensures match truth(path + rest[..k])
            case Fails => Walk(truth, path, rest) == Failure(EvalFailed(path + rest[..k]))
            case SetVal(names) =>
              Walk(truth, path, rest)
              == if rest[k] in names then Walk(truth, path + rest[..k + 1], rest[k + 1..]) else Success(None)
            case _ => Walk(truth, path, rest) == Failure(NotThatType(path + rest[..k]))
  {
    assert rest[k..][0] == rest[k] && rest[k..][1..] == rest[k + 1..];
    assert rest[..k + 1] == rest[..k] + [rest[k]];
  }

  /** As `Walk`, except that a cached failure of an attribute on the path or at its end may be raised earlier. */
  predicate FindAgrees(truth: Truth, useDb: bool, path: Path, rest: Path, r: Result<Option<Path>, Error>) {
    || r == Walk(truth, path, rest)
    || (useDb && r.Failure? && r.error.CachedFailure? && OnPath(path, rest, r.error.path) && truth(r.error.path).Fails?)
  }

  predicate OnPath(path: Path, rest: Path, q: Path) {
    path <= q <= path + rest
  }

  /** On values that fit a C int the cached integer is the integer; on others, such as 2 to the 31, it never is. */
  lemma CIntExact(n: int)
    ensures CInt(n) == n <==> FitsCInt(n)
    ensures FitsCInt(CInt(n)) && (n - CInt(n)) % 0x1_0000_0000 == 0
    ensures CInt(0x8000_0000) == -0x8000_0000
  {
  }

  lemma OneFurther(path: Path, rest: Path, k: nat)
    requires k + 1 < |rest|
    ensures path + [rest[0]] + rest[1..][..k] == path + rest[..k + 1] && rest[1..][k] == rest[k + 1]
  {
    assert rest[..k + 1] == [rest[0]] + rest[1..][..k];
  }

  /** Without a cache a path is found exactly if every name on it is an attribute of the set before it. */
  lemma {:induction false} WalkRule(truth: Truth, path: Path, rest: Path)
    ensures Walk(truth, path, rest).Success? && Walk(truth, path, rest).value.Some? <==>
              forall k :: 0 <= k < |rest| ==> HasAttr(truth, path + rest[..k], rest[k])
    ensures Walk(truth, path, rest).Success? && Walk(truth, path, rest).value.Some? ==>
              Walk(truth, path, rest).value.value == path + rest
    decreases |rest|
  {
    if rest == [] {
      assert path + rest == path;
    } else {
      var path', rest' := path + [rest[0]], rest[1..];
      assert path + rest[..0] == path && path' + rest' == path + rest;
      WalkRule(truth, path', rest');
      forall k | 0 <= k < |rest'| ensures path' + rest'[..k] == path + rest[..k + 1] && rest'[k] == rest[k + 1] {
        OneFurther(path, rest, k);
      }
      if forall k :: 0 <= k < |rest| ==> HasAttr(truth, path + rest[..k], rest[k]) {
        assert HasAttr(truth, path + rest[..0], rest[0]);
        forall k | 0 <= k < |rest'| ensures HasAttr(truth, path' + rest'[..k], rest'[k]) {
          assert HasAttr(truth, path + rest[..k + 1], rest[k + 1]);
        }
      } else if HasAttr(truth, path, rest[0]) {
        var k :| 0 <= k < |rest| && !HasAttr(truth, path + rest[..k], rest[k]);
        assert k > 0 && !HasAttr(truth, path' + rest'[..k - 1], rest'[k - 1]);
      }
    }
  }

  /** Otherwise the first name that is not says why: a failure, a value that is not a set, or a set without it. */
  lemma {:induction false} WalkStops(truth: Truth, path: Path, rest: Path, k: nat)
    requires k < |rest| && !HasAttr(truth, path + rest[..k], rest[k])
    requires forall j :: 0 <= j < k ==> HasAttr(truth, path + rest[..j], rest[j])
    ensures var here := path + rest[..k];
            Walk(truth, path, rest)
            == if truth(here).Fails? then Failure(EvalFailed(here))
               else if truth(here).SetVal? then Success(None) else Failure(NotThatType(here))
    decreases k
  {
    assert path + rest[..0] == path;
    if k > 0 {
      var path', rest' := path + [rest[0]], rest[1..];
      assert HasAttr(truth, path + rest[..0], rest[0]);
      forall j | 0 <= j <= k - 1 ensures path' + rest'[..j] == path + rest[..j + 1] && rest'[j] == rest[j + 1] {
        OneFurther(path, rest, j);
      }
      forall j | 0 <= j < k - 1 ensures HasAttr(truth, path' + rest'[..j], rest'[j]) {
        assert HasAttr(truth, path + rest[..j + 1], rest[j + 1]);
      }
      WalkStops(truth, path', rest', k - 1);
    }
  }

  class AttrCache {
    const truth: Truth
    const useDb: bool
    var rows: map<AttrKey, Row>
    var lastId: AttrId
    var cursors: seq<Cursor>
    ghost var log: map<AttrId, Entry>

    ghost predicate Valid()
      reads this
    {
      truth([]).SetVal? && DbOk(truth, rows, log, lastId, {}) && CursorsOk(truth, useDb, log, cursors)
    }

    constructor (truth: Truth, useDb: bool)
      requires truth([]).SetVal?
      ensures Valid() && this.truth == truth && this.useDb == useDb && cursors == [] && rows == map[]
    {
      this.truth, this.useDb := truth, useDb;
      rows, lastId, cursors, log := map[], 0, [], map[];
    }

    /** A later process opens the same database: its rows are still faithful, and all cursors are gone. */
    method Reopen()
      requires Valid()
      modifies this`cursors
      ensures Valid() && cursors == []
    {
      cursors := [];
    }

    lemma GetAttrOk(key: AttrKey)
      requires DbOk(truth, rows, log, lastId, {})
      ensures key in rows ==>
                var (id, v) := ReadRow(rows, key).value;
                && id in log && KeyPath(log, key) == Some(log[id].path)
                && Matches(truth, log[id].path, log[id].content, v)
    {
      if key in rows {
        var row := rows[key];
        assert RowOk(log, key, row);
        if row.content.FullAttrs? {
          var names := truth(log[row.id].path).names;
          assert ChildrenAre(rows, row.id, names);
          var read := set k | k in rows && k.0 == row.id :: k.1;
          forall n ensures n in read <==> n in names {
            if n in names { assert (row.id, n) in rows; }
          }
        }
      }
    }

    /** `insert or replace`. */
    method Insert(key: AttrKey, content: Content, ghost path: Path, ghost pending: set<AttrId>) returns (id: AttrId)
      requires DbOk(truth, rows, log, lastId, pending)
      requires KeyPath(log, key) == Some(path) && Faithful(truth, path, content)
      requires KeyAllowed(truth, log, key, pending)
      modifies this`rows, this`lastId, this`log
      ensures id == lastId == old(lastId) + 1
      ensures rows == old(rows)[key := Row(id, content)]
      ensures log == old(log)[id := Entry(path, content)] && LogKept(old(log), log)
      ensures DbOk(truth, rows, log, lastId, if content.FullAttrs? then pending + {id} else pending)
    {
      InsertOk(truth, rows, log, lastId, pending, key, path, content);
      lastId := lastId + 1;
      id := lastId;
      rows := rows[key := Row(id, content)];
      log := log[id := Entry(path, content)];
    }

    /** `setAttrs`: the row of the set, then a placeholder for every attribute. */
    method SetAttrs(key: AttrKey, names: set<Name>, ghost path: Path) returns (id: AttrId)
      requires DbOk(truth, rows, log, lastId, {})
      requires KeyPath(log, key) == Some(path) && Exists(truth, path) && truth(path) == SetVal(names)
      requires KeyAllowed(truth, log, key, {})
      modifies this`rows, this`lastId, this`log
      ensures DbOk(truth, rows, log, lastId, {}) && LogKept(old(log), log)
      ensures id in log && log[id] == Entry(path, FullAttrs)
      ensures key in rows && rows[key] == Row(id, FullAttrs) && ChildrenAre(rows, id, names)
    {
      KeysAreOld(truth, rows, log, lastId);
      id := Insert(key, FullAttrs, path, {});
      SetPlaceholders(id, names, path);
    }

    method SetPlaceholders(id: AttrId, names: set<Name>, ghost path: Path)
      requires DbOk(truth, rows, log, lastId, {id}) && id in log && log[id] == Entry(path, FullAttrs)
      requires Exists(truth, path) && truth(path) == SetVal(names) && ChildrenAre(rows, id, {})
      modifies this`rows, this`lastId, this`log
      ensures DbOk(truth, rows, log, lastId, {}) && LogKept(old(log), log) && ChildrenAre(rows, id, names)
      ensures OthersKept(old(rows), rows, id)
    {
      var todo := names;
      ghost var done := {};
      while todo != {}
        invariant done + todo == names && Filling(old(rows), old(log), id, path, done)
        decreases todo
      {
        var n :| n in todo;
        WritePlaceholder(id, n, path, done, old(rows), old(log));
        todo, done := todo - {n}, done + {n};
      }
      assert done == names;
    }

    /** The row of a set is there, with placeholders for some of its attributes; nothing else changed. */
    ghost predicate Filling(rows0: map<AttrKey, Row>, log0: map<AttrId, Entry>, id: AttrId, path: Path,
                            done: set<Name>)
      reads this
    {
      && DbOk(truth, rows, log, lastId, {id}) && id in log && log[id] == Entry(path, FullAttrs)
      && ChildrenAre(rows, id, done) && OthersKept(rows0, rows, id) && LogKept(log0, log)
    }

    method WritePlaceholder(id: AttrId, n: Name, ghost path: Path, ghost done: set<Name>,
                            ghost rows0: map<AttrKey, Row>, ghost log0: map<AttrId, Entry>)
      requires Exists(truth, path) && HasAttr(truth, path, n) && Filling(rows0, log0, id, path, done)
      modifies this`rows, this`lastId, this`log
      ensures Filling(rows0, log0, id, path, done + {n})
    {
      ExistsChild(truth, path, n);
      var _ := Insert((id, n), Placeholder, path + [n], {id});
    }

    /** `EvalCache::getRoot`. */
    method GetRoot() returns (c: nat)
      requires Valid()
      modifies this`cursors
      ensures Valid() && c == |old(cursors)| && cursors == old(cursors) + [Cursor(None, [], None)]
    {
      c := |cursors|;
      var root := Cursor(None, [], None);
      AppendOk(truth, useDb, log, cursors, root);
      cursors := cursors + [root];
    }

    /** The parent's row is always known, so the re-read of the source and its assertion are never reached. */
    method GetKey(c: nat) returns (key: AttrKey)
      requires Valid() && useDb && c < |cursors|
      ensures key == KeyOf(cursors, c) && KeyPath(log, key) == Some(cursors[c].path)
      ensures KeyAllowed(truth, log, key, {})
    {
      assert CursorOk(truth, useDb, log, cursors, c);
      match cursors[c].parent
      case None =>
        key := (0, "");
        assert 0 !in log;
      case Some((p, name)) =>
        assert CursorOk(truth, useDb, log, cursors, p);
        if cursors[p].cached.None? { assert false; }
        key := (cursors[p].cached.value.0, name);
        assert 0 !in log;
    }

    /** `getValue`: the attribute is there, so "unexpectedly missing" is never raised. */
    method GetValue(c: nat) returns (v: Outcome)
      requires Valid() && c < |cursors|
      ensures v == truth(cursors[c].path)
      decreases c
    {
      assert CursorOk(truth, useDb, log, cursors, c);
      match cursors[c].parent
      case None => v := truth([]);
      case Some((p, name)) =>
        var vParent := GetValue(p);
        if !vParent.SetVal? || name !in vParent.names { assert false; }
        v := truth(cursors[p].path + [name]);
    }

    /** Assigns `cachedValue`. */
    method Remember(c: nat, id: AttrId, v: AttrValue)
      requires Valid() && useDb && c < |cursors|
      requires id in log && log[id].path == cursors[c].path && Matches(truth, cursors[c].path, log[id].content, v)
      modifies this`cursors
      ensures Valid() && cursors == old(cursors)[c := old(cursors)[c].(cached := Some((id, v)))]
    {
      RememberOk(truth, log, cursors, c, id, v);
      cursors := cursors[c := cursors[c].(cached := Some((id, v)))];
    }

    /** `set…(getKey(), …)` followed by the assignment to `cachedValue`. */
    method Store(c: nat, content: Content, v: AttrValue)
      requires Valid() && useDb && c < |cursors| && !content.FullAttrs?
      requires Faithful(truth, cursors[c].path, content) && Matches(truth, cursors[c].path, content, v)
      modifies this
      ensures Valid() && LogKept(old(log), log) && lastId == old(lastId) + 1
      ensures rows == old(rows)[KeyOf(old(cursors), c) := Row(lastId, content)]
      ensures cursors == old(cursors)[c := old(cursors)[c].(cached := Some((lastId, v)))]
    {
      var key := GetKey(c);
      var id := Insert(key, content, cursors[c].path, {});
      CursorsSurvive(truth, useDb, old(log), log, cursors);
      Remember(c, id, v);
    }

    /** `fetchCachedValue`; the error is the cached failure it throws. */
    method FetchCachedValue(c: nat) returns (e: Option<Error>)
      requires Valid() && useDb && c < |cursors|
      modifies this`cursors
      ensures Valid() && cursors == old(cursors)[c := old(cursors)[c].(cached := Loaded(rows, old(cursors), c))]
      ensures e.Some? ==> e.value == CachedFailure(cursors[c].path) && truth(cursors[c].path).Fails?
      ensures e.None? <==> cursors[c].cached.None? || !cursors[c].cached.value.1.VFailed?
    {
      if cursors[c].cached.None? {
        var key := GetKey(c);
        var found := ReadRow(rows, key);
        if found.Some? {
          GetAttrOk(key);
          Remember(c, found.value.0, found.value.1);
        }
      }
      assert CursorOk(truth, useDb, log, cursors, c);
      if cursors[c].cached.Some? && cursors[c].cached.value.1.VFailed? && cursors[c].parent.Some? {
        return Some(CachedFailure(cursors[c].path));
      }
      return None;
    }

    /** `AttrCursor::forceValue`: a value that is not a set is written to its row, unless it was known. */
    method ForceValue(c: nat) returns (r: Result<Outcome, Error>)
      requires Valid() && c < |cursors|
      modifies this
      ensures Valid() && LogKept(old(log), log)
      ensures r == if truth(old(cursors)[c].path).Fails? then Failure(EvalFailed(old(cursors)[c].path))
                   else Success(truth(old(cursors)[c].path))
      ensures Forced(old(rows), old(lastId), old(cursors), c)
    {
      var v := GetValue(c);
      assert CursorOk(truth, useDb, log, cursors, c);
      if v.Fails? {
        if useDb { Store(c, Failed, VFailed); }
        return Failure(EvalFailed(cursors[c].path));
      }
      if useDb && (cursors[c].cached.None? || cursors[c].cached.value.1.VPlaceholder?) {
        if v.StrVal? { Store(c, String(v.s), VString(v.s)); }
        else if v.PathVal? { Store(c, String(v.abs), VString(v.abs)); }
        else if v.BoolVal? { Store(c, Bool(v.b), VBool(v.b)); }
        else if v.IntVal? { Store(c, Int(CInt(v.n)), VInt(v.n)); }
        else if v.OtherVal? { Store(c, Misc, VMisc); }
      }
      return Success(v);
    }

    /** What forcing does to the table and to the cursor. */
    ghost predicate Forced(rows0: map<AttrKey, Row>, lastId0: AttrId, cursors0: seq<Cursor>, c: nat)
      requires c < |cursors0|
      reads this
    {
      var v := truth(cursors0[c].path);
      if useDb && !v.SetVal? && (v.Fails? || Unknown(cursors0[c].cached)) then
        && lastId == lastId0 + 1
        && rows == rows0[KeyOf(cursors0, c) := Row(lastId, Stored(v))]
        && cursors == cursors0[c := cursors0[c].(cached := Some((lastId, Recalled(v))))]
      else
        lastId == lastId0 && rows == rows0 && cursors == cursors0
    }

    /** A new cursor for the attribute `name` of the cursor `c`. */
    method AddCursor(c: nat, name: Name, cached: Option<(AttrId, AttrValue)>) returns (child: nat)
      requires Valid() && c < |cursors|
      requires HasAttr(truth, cursors[c].path, name) && (useDb ==> cursors[c].cached.Some?)
      requires cached.Some? ==>
                 && useDb && cached.value.0 in log && log[cached.value.0].path == cursors[c].path + [name]
                 && Matches(truth, cursors[c].path + [name], log[cached.value.0].content, cached.value.1)
      modifies this`cursors
      ensures Valid() && child == |old(cursors)|
      ensures cursors == old(cursors) + [Cursor(Some((c, name)), old(cursors)[c].path + [name], cached)]
    {
      assert CursorOk(truth, useDb, log, cursors, c);
      ExistsChild(truth, cursors[c].path, name);
      child := |cursors|;
      var cursor := Cursor(Some((c, name)), cursors[c].path + [name], cached);
      AppendOk(truth, useDb, log, cursors, cursor);
      cursors := cursors + [cursor];
    }

    /** The cursor's path, for answers. */
    function PathOf(c: Option<nat>): Option<Path>
      requires c.Some? ==> c.value < |cursors|
      reads this
    {
      if c.None? then None else Some(cursors[c.value].path)
    }

    ghost predicate ChildReply(path: Path, name: Name, r: Result<Option<nat>, Error>)
      reads this
    {
      match r
      case Failure(e) => ChildAgrees(truth, useDb, path, name, Failure(e))
      case Success(c) => (c.Some? ==> c.value < |cursors|) && ChildAgrees(truth, useDb, path, name, Success(PathOf(c)))
    }

    /**
     * The part of `maybeGetAttr` that answers from what is known; the second
     * result says whether evaluation is still needed.
     */
    method MaybeGetCached(c: nat, name: Name) returns (r: Result<Option<nat>, Error>, more: bool)
      requires Valid() && useDb && c < |cursors|
      modifies this`cursors
      ensures Valid() && CursorsKept(old(cursors), cursors)
      ensures !more ==> ChildReply(old(cursors)[c].path, name, r) && OneMore(old(cursors), cursors, r)
      ensures !more && Found(r) ==> Linked(rows, old(cursors), Loaded(rows, old(cursors), c), cursors, c, name)
      ensures more ==> NoRow(rows, cursors, c, name)
      ensures more ==> cursors == old(cursors)[c := old(cursors)[c].(cached := Loaded(rows, old(cursors), c))]
    {
      var e := FetchCachedValue(c);
      assert CursorOk(truth, useDb, log, cursors, c);
      if e.Some? { return Failure(e.value), false; }
      if cursors[c].cached.None? {
        KeyOfSame(truth, useDb, log, old(cursors), c, cursors[c].cached);
        return Success(None), true;
      }
      var (id, v) := cursors[c].cached.value;
      if v.VAttrs? {
        if name !in v.names { return Success(None), false; }
        var child := AddCursor(c, name, None);
        return Success(Some(child)), false;
      }
      if !v.VPlaceholder? { return Success(None), false; }
      r, more := MaybeGetRow(c, id, name);
    }

    /** The row of the attribute below a placeholder row, if there is one. */
    method MaybeGetRow(c: nat, id: AttrId, name: Name) returns (r: Result<Option<nat>, Error>, more: bool)
      requires Valid() && useDb && c < |cursors|
      requires cursors[c].cached == Some((id, VPlaceholder))
      modifies this`cursors
      ensures Valid() && OneMore(old(cursors), cursors, r) && old(cursors) <= cursors
      ensures !more ==> ChildReply(old(cursors)[c].path, name, r)
      ensures more ==> (id, name) !in rows && cursors == old(cursors)
      ensures !more && Found(r) ==>
                && cursors[|old(cursors)|].parent == Some((c, name))
                && cursors[|old(cursors)|].cached == ReadRow(rows, (id, name))
    {
      assert CursorOk(truth, useDb, log, cursors, c);
      var key := (id, name);
      var attr := ReadRow(rows, key);
      if attr.None? { return Success(None), true; }
      GetAttrOk(key);
      ghost var content := log[attr.value.0].content;
      assert Faithful(truth, cursors[c].path + [name], content);
      ChildFacts(truth, cursors[c].path, name, content);
      if attr.value.1.VMissing? { return Success(None), false; }
      if attr.value.1.VFailed? { return Failure(CachedFailure(cursors[c].path + [name])), false; }
      var child := AddCursor(c, name, attr);
      return Success(Some(child)), false;
    }

    /**
     * `maybeGetAttr`. On a set, rows are only added; a child that is found is
     * one new cursor, tied to the row of its parent and remembering its own
     * row or nothing.
     */
    method MaybeGetAttr(c: nat, name: Name) returns (r: Result<Option<nat>, Error>)
      requires Valid() && c < |cursors|
      modifies this
      ensures Valid() && LogKept(old(log), log) && CursorsKept(old(cursors), cursors) && old(lastId) <= lastId
      ensures ChildReply(old(cursors)[c].path, name, r) && OneMore(old(cursors), cursors, r)
      ensures truth(old(cursors)[c].path).SetVal? ==> RowsAdded(old(rows), rows, old(lastId))
      ensures useDb && Found(r) ==>
                Linked(rows, old(cursors), Loaded(old(rows), old(cursors), c), cursors, c, name)
    {
      if useDb {
        var more;
        r, more := MaybeGetCached(c, name);
        if !more { return; }
        KeyOfSame(truth, useDb, log, old(cursors), c, cursors[c].cached);
      }
      var v :- ForceValue(c);
      if !v.SetVal? { return Success(None); }
      r := MaybeGetEvaluated(c, name, v.names);
    }

    /** The attribute of an evaluated set, with its row. */
    method MaybeGetEvaluated(c: nat, name: Name, names: set<Name>) returns (r: Result<Option<nat>, Error>)
      requires Valid() && c < |cursors| && truth(cursors[c].path) == SetVal(names)
      requires useDb ==> NoRow(rows, cursors, c, name)
      modifies this
      ensures Valid() && LogKept(old(log), log) && CursorsKept(old(cursors), cursors) && old(lastId) <= lastId
      ensures ChildReply(old(cursors)[c].path, name, r) && OneMore(old(cursors), cursors, r)
      ensures RowsAdded(old(rows), rows, old(lastId))
      ensures useDb && Found(r) ==> Linked(rows, old(cursors), old(cursors)[c].cached, cursors, c, name)
    {
      var cached: Option<(AttrId, AttrValue)> := None;
      if useDb {
        ghost var rows0, lastId0 := rows, lastId;
        var id := WriteParent(c, name);
        ghost var rows1, lastId1 := rows, lastId;
        cached := WriteChild(c, id, name, names);
        AddedTwice(rows0, rows1, rows, lastId0, lastId1);
      }
      if name !in names { return Success(None); }
      var child := AddCursor(c, name, cached);
      return Success(Some(child));
    }

    /** Writes a placeholder for the set if it has no row. */
    method WriteParent(c: nat, name: Name) returns (id: AttrId)
      requires Valid() && c < |cursors| && truth(cursors[c].path).SetVal?
      requires useDb && NoRow(rows, cursors, c, name)
      modifies this
      ensures Valid() && LogKept(old(log), log) && old(lastId) <= lastId && RowsAdded(old(rows), rows, old(lastId))
      ensures cursors == old(cursors)[c := old(cursors)[c].(cached := Some((id, VPlaceholder)))] && (id, name) !in rows
      ensures old(cursors)[c].cached.Some? ==> cursors == old(cursors)
      ensures old(cursors)[c].cached.None? ==>
                KeyOf(old(cursors), c) in rows && rows[KeyOf(old(cursors), c)].id == id
    {
      assert CursorOk(truth, useDb, log, cursors, c);
      KeysAreOld(truth, rows, log, lastId);
      if cursors[c].cached.None? { Store(c, Placeholder, VPlaceholder); }
      id := cursors[c].cached.value.0;
    }

    /** Writes the row of an attribute, there or missing, below a row that has none for it. */
    method WriteChild(c: nat, id: AttrId, name: Name, names: set<Name>)
      returns (cached: Option<(AttrId, AttrValue)>)
      requires Valid() && useDb && c < |cursors| && truth(cursors[c].path) == SetVal(names)
      requires cursors[c].cached == Some((id, VPlaceholder)) && (id, name) !in rows
      modifies this`rows, this`lastId, this`log
      ensures Valid() && LogKept(old(log), log) && old(lastId) <= lastId && RowsAdded(old(rows), rows, old(lastId))
      ensures cached.Some? <==> name in names
      ensures cached.Some? ==>
                && cached == ReadRow(rows, (id, name))
                && cached.value.0 in log && log[cached.value.0].path == cursors[c].path + [name]
                && Matches(truth, cursors[c].path + [name], log[cached.value.0].content, cached.value.1)
    {
      assert CursorOk(truth, useDb, log, cursors, c);
      var path := cursors[c].path;
      ExistsChild(truth, path, name);
      assert (path + [name])[..|path|] == path;
      var content := if name in names then Placeholder else Missing;
      var child := Insert((id, name), content, path + [name], {});
      CursorsSurvive(truth, useDb, old(log), log, cursors);
      return if name in names then Some((child, VPlaceholder)) else None;
    }

    /** The common beginning of the getters: a cached failure, a known value, or nothing yet. */
    method Known(c: nat) returns (r: Result<Option<AttrValue>, Error>)
      requires Valid() && useDb && c < |cursors|
      modifies this`cursors
      ensures Valid() && CursorsKept(old(cursors), cursors) && |cursors| == |old(cursors)|
      ensures KeyOf(cursors, c) == KeyOf(old(cursors), c)
      ensures r.Failure? ==> r.error == CachedFailure(cursors[c].path) && truth(cursors[c].path).Fails?
      ensures cursors[c].cached == Loaded(rows, old(cursors), c)
      ensures r.Success? && r.value.None? ==> Unknown(cursors[c].cached)
      ensures r.Success? && r.value.Some? ==>
                && ValueFacts(truth, cursors[c].path, r.value.value)
                && cursors[c].cached.Some? && cursors[c].cached.value.1 == r.value.value
    {
      var e := FetchCachedValue(c);
      assert CursorOk(truth, useDb, log, cursors, c);
      KeyOfSame(truth, useDb, log, old(cursors), c, cursors[c].cached);
      if e.Some? { return Failure(e.value); }
      if cursors[c].cached.Some? && !cursors[c].cached.value.1.VPlaceholder? {
        return Success(Some(cursors[c].cached.value.1));
      }
      return Success(None);
    }

    /** `getString`. A path that was cached is answered from its row, by its absolute path. */
    method GetString(c: nat) returns (r: Result<string, Error>)
      requires Valid() && c < |cursors|
      modifies this
      ensures Valid() && LogKept(old(log), log) && CursorsKept(old(cursors), cursors) && |cursors| == |old(cursors)|
      ensures StringAgrees(truth, useDb, old(cursors)[c].path, r)
      ensures useDb && truth(old(cursors)[c].path).PathVal? ==>
                var v, loaded := truth(old(cursors)[c].path), Loaded(old(rows), old(cursors), c);
                if Unknown(loaded) then r == Success(v.shown) && Wrote(old(rows), KeyOf(old(cursors), c), v)
                else r == Success(v.abs) && rows == old(rows)
    {
      if useDb {
        var known := Known(c);
        if known.Failure? { return Failure(known.error); }
        if known.value.Some? {
          var v := known.value.value;
          return if v.VString? then Success(v.s) else Failure(NotThatType(cursors[c].path));
        }
      }
      var v :- ForceValue(c);
      if v.StrVal? { return Success(v.s); }
      if v.PathVal? { return Success(v.shown); }
      return Failure(NotThatType(cursors[c].path));
    }

    method GetBool(c: nat) returns (r: Result<bool, Error>)
      requires Valid() && c < |cursors|
      modifies this
      ensures Valid() && LogKept(old(log), log) && CursorsKept(old(cursors), cursors) && |cursors| == |old(cursors)|
      ensures BoolAgrees(truth, useDb, old(cursors)[c].path, r)
    {
      if useDb {
        var known := Known(c);
        if known.Failure? { return Failure(known.error); }
        if known.value.Some? {
          var v := known.value.value;
          return if v.VBool? then Success(v.b) else Failure(NotThatType(cursors[c].path));
        }
      }
      var v :- ForceValue(c);
      return if v.BoolVal? then Success(v.b) else Failure(NotThatType(cursors[c].path));
    }

    /** `getInt`. An integer that was cached is answered from what the cursor loads. */
    method GetInt(c: nat) returns (r: Result<int, Error>)
      requires Valid() && c < |cursors|
      modifies this
      ensures Valid() && LogKept(old(log), log) && CursorsKept(old(cursors), cursors) && |cursors| == |old(cursors)|
      ensures IntAgrees(truth, useDb, old(cursors)[c].path, r)
      ensures useDb && truth(old(cursors)[c].path).IntVal? ==>
                var v, loaded := truth(old(cursors)[c].path), Loaded(old(rows), old(cursors), c);
                if Unknown(loaded) then r == Success(v.n) && Wrote(old(rows), KeyOf(old(cursors), c), v)
                else loaded.value.1.VInt? && r == Success(loaded.value.1.n) && rows == old(rows)
    {
      if useDb {
        var known := Known(c);
        if known.Failure? { return Failure(known.error); }
        if known.value.Some? {
          var v := known.value.value;
          return if v.VInt? then Success(v.n) else Failure(NotThatType(cursors[c].path));
        }
      }
      var v :- ForceValue(c);
      return if v.IntVal? then Success(v.n) else Failure(NotThatType(cursors[c].path));
    }

    /** The row of an evaluated value was written. */
    ghost predicate Wrote(rows0: map<AttrKey, Row>, key: AttrKey, v: Outcome)
      reads this
    {
      !v.SetVal? && rows == rows0[key := Row(lastId, Stored(v))]
    }

    method GetAttrs(c: nat) returns (r: Result<set<Name>, Error>)
      requires Valid() && c < |cursors|
      modifies this
      ensures Valid() && LogKept(old(log), log) && CursorsKept(old(cursors), cursors) && |cursors| == |old(cursors)|
      ensures NamesAgree(truth, useDb, old(cursors)[c].path, r)
    {
      if useDb {
        var known := Known(c);
        if known.Failure? { return Failure(known.error); }
        if known.value.Some? {
          var v := known.value.value;
          return if v.VAttrs? then Success(v.names) else Failure(NotThatType(cursors[c].path));
        }
      }
      var v :- ForceValue(c);
      if !v.SetVal? { return Failure(NotThatType(cursors[c].path)); }
      if useDb { StoreAttrs(c, v.names); }
      return Success(v.names);
    }

    /** `setAttrs(getKey(), …)` followed by the assignment to `cachedValue`. */
    method StoreAttrs(c: nat, names: set<Name>)
      requires Valid() && useDb && c < |cursors| && truth(cursors[c].path) == SetVal(names)
      modifies this
      ensures Valid() && LogKept(old(log), log) && |cursors| == |old(cursors)|
      ensures KeyOf(old(cursors), c) in rows
      ensures var row := rows[KeyOf(old(cursors), c)];
              && row.content.FullAttrs? && ChildrenAre(rows, row.id, names)
              && cursors == old(cursors)[c := old(cursors)[c].(cached := Some((row.id, VAttrs(names))))]
    {
      assert CursorOk(truth, useDb, log, cursors, c);
      var key := GetKey(c);
      var id := SetAttrs(key, names, cursors[c].path);
      CursorsSurvive(truth, useDb, old(log), log, cursors);
      Remember(c, id, VAttrs(names));
    }

    /** `findAlongAttrPath`; asking for suggestions on a missing name evaluates the names of the set. */
    method FindAlongAttrPath(c: nat, attrPath: Path) returns (r: Result<Option<nat>, Error>)
      requires Valid() && c < |cursors|
      modifies this
      ensures Valid() && LogKept(old(log), log) && CursorsKept(old(cursors), cursors)
      ensures FindReply(old(cursors)[c].path, attrPath, r)
      ensures |cursors| <= |old(cursors)| + |attrPath|
      ensures Trail(cursors, |old(cursors)|, |cursors|, old(cursors)[c].path, attrPath)
      ensures Found(r) ==>
                && |cursors| == |old(cursors)| + |attrPath|
                && r.value.value == if attrPath == [] then c else |cursors| - 1
    {
      ghost var path := cursors[c].path;
      var res: nat := c;
      for k := 0 to |attrPath|
        invariant Valid() && LogKept(old(log), log) && CursorsKept(old(cursors), cursors)
        invariant OnTrail(|old(cursors)|, c, path, attrPath, k, res)
      {
        var stop;
        stop, res := FindStep(res, attrPath, k, |old(cursors)|, c, path);
        if stop.Some? { return stop.value; }
      }
      assert attrPath[..|attrPath|] == attrPath;
      return Success(Some(res));
    }

    /** One name of `findAlongAttrPath`: the next cursor, or the answer. */
    method FindStep(res: nat, attrPath: Path, k: nat, ghost first: nat, ghost c: nat, ghost path: Path)
      returns (stop: Option<Result<Option<nat>, Error>>, next: nat)
      requires Valid() && k < |attrPath| && OnTrail(first, c, path, attrPath, k, res)
      modifies this
      ensures Valid() && LogKept(old(log), log) && CursorsKept(old(cursors), cursors)
      ensures stop.None? ==> OnTrail(first, c, path, attrPath, k + 1, next)
      ensures stop.Some? ==>
                && FindReply(path, attrPath, stop.value) && !Found(stop.value)
                && Trail(cursors, first, |cursors|, path, attrPath)
    {
      WalkStep(truth, path, attrPath, k);
      PrefixesOnPath(path, attrPath, k);
      var child := MaybeGetAttr(res, attrPath[k]);
      TrailStep(old(cursors), cursors, first, path, attrPath);
      if child.Failure? { return Some(Failure(child.error)), res; }
      if child.value.None? {
        var r := Suggest(res, first, path, attrPath);
        return Some(r), res;
      }
      return None, child.value.value;
    }

    /** After `k` names: one new cursor each, and the last one is where the rest of the walk starts. */
    ghost predicate OnTrail(first: nat, c: nat, path: Path, attrPath: Path, k: nat, res: nat)
      reads this
    {
      && k <= |attrPath| && res < |cursors| && cursors[res].path == path + attrPath[..k]
      && |cursors| == first + k && res == (if k == 0 then c else |cursors| - 1)
      && Trail(cursors, first, |cursors|, path, attrPath)
      && Walk(truth, path, attrPath) == Walk(truth, path + attrPath[..k], attrPath[k..])
    }

    /** Asking for suggestions evaluates the names of the set; the walk ends here in any case. */
    method Suggest(c: nat, ghost first: nat, ghost path: Path, ghost attrPath: Path)
      returns (r: Result<Option<nat>, Error>)
      requires Valid() && c < |cursors| && Trail(cursors, first, |cursors|, path, attrPath)
      modifies this
      ensures Valid() && LogKept(old(log), log) && CursorsKept(old(cursors), cursors) && |cursors| == |old(cursors)|
      ensures Trail(cursors, first, |cursors|, path, attrPath) && !Found(r)
      ensures match truth(old(cursors)[c].path)
              case Fails => r.Failure? && FailureAt(useDb, old(cursors)[c].path, r.error)
              case SetVal(_) => r == Success(None)
              case _ => r == Failure(NotThatType(old(cursors)[c].path))
    {
      var suggestions := GetAttrs(c);
      TrailStep(old(cursors), cursors, first, path, attrPath);
      return if suggestions.Failure? then Failure(suggestions.error) else Success(None);
    }

    ghost predicate FindReply(path: Path, rest: Path, r: Result<Option<nat>, Error>)
      reads this
    {
      match r
      case Failure(e) => FindAgrees(truth, useDb, path, rest, Failure(e))
      case Success(c) => (c.Some? ==> c.value < |cursors|) && FindAgrees(truth, useDb, path, rest, Success(PathOf(c)))
    }

    /** One client operation; an unknown cursor is ignored. */
    method Step(op: Op) returns (reply: Reply)
      requires Valid()
      modifies this
      ensures Valid() && LogKept(old(log), log) && CursorsKept(old(cursors), cursors)
      ensures Served(truth, useDb, cursors, |old(cursors)|, |cursors|, op, reply)
    {
      if op.Root? {
        var c := GetRoot();
        return Done;
      }
      if op.c >= |cursors| { return Ignored; }
      var path := cursors[op.c].path;
      match op
      case Child(c, name) =>
        var r := MaybeGetAttr(c, name);
        return ChildIs(path, name, if r.Failure? then Failure(r.error) else Success(PathOf(r.value)));
      case Find(c, rest) =>
        var r := FindAlongAttrPath(c, rest);
        return FoundIs(path, rest, if r.Failure? then Failure(r.error) else Success(PathOf(r.value)));
      case AskString(c) => var r := GetString(c); return StringIs(path, r);
      case AskBool(c) => var r := GetBool(c); return BoolIs(path, r);
      case AskInt(c) => var r := GetInt(c); return IntIs(path, r);
      case AskAttrs(c) => var r := GetAttrs(c); return NamesAre(path, r);
      case Force(c) => var r := ForceValue(c); return Done;
    }

    /**
     * Any interleaving of operations on any number of cursors. `counts[k]` is
     * the number of cursors before operation `k`: exactly the operations on
     * cursors that exist by then are answered, and every answer agrees with
     * evaluation.
     */
    method Run(ops: seq<Op>) returns (replies: seq<Reply>, ghost counts: seq<nat>)
      requires Valid()
      modifies this
      ensures Valid() && LogKept(old(log), log) && CursorsKept(old(cursors), cursors)
      ensures |replies| == |ops| && |counts| == |ops| + 1 && counts[0] == |old(cursors)| && counts[|ops|] == |cursors|
      ensures forall k :: 0 <= k < |ops| ==> Served(truth, useDb, cursors, counts[k], counts[k + 1], ops[k], replies[k])
    {
      replies, counts := [], [|cursors|];
      for i := 0 to |ops|
        invariant Valid() && LogKept(old(log), log) && CursorsKept(old(cursors), cursors)
        invariant |replies| == i && |counts| == i + 1 && counts[0] == |old(cursors)| && counts[i] == |cursors|
        invariant forall k :: 0 <= k < i ==> Served(truth, useDb, cursors, counts[k], counts[k + 1], ops[k], replies[k])
      {
        ghost var before := cursors;
        var reply := Step(ops[i]);
        forall k | 0 <= k < i ensures Served(truth, useDb, cursors, counts[k], counts[k + 1], ops[k], replies[k]) {
          ServedKept(truth, useDb, before, cursors, counts[k], counts[k + 1], ops[k], replies[k]);
        }
        replies, counts := replies + [reply], counts + [|cursors|];
      }
    }

    // ---------- asking again ----------

    /** The cursor is tied to the row that its path leads to, and remembers nothing else. */
    ghost predicate OnRow(c: nat, path: Path)
      reads this
    {
      && c < |cursors| && cursors[c].path == path && KeyAt(rows, path) == Some(KeyOf(cursors, c))
      && Loaded(rows, cursors, c) == ReadRow(rows, KeyOf(cursors, c))
    }

    /** One name further down. */
    method Descend(c: nat, ghost path: Path, name: Name) returns (child: nat)
      requires Valid() && useDb && OnRow(c, path) && HasAttr(truth, path, name) && !truth(path + [name]).Fails?
      modifies this
      ensures Valid() && LogKept(old(log), log) && old(lastId) <= lastId && RowsAdded(old(rows), rows, old(lastId))
      ensures OnRow(child, path + [name])
    {
      KeysAreOld(truth, rows, log, lastId);
      var r := MaybeGetAttr(c, name);
      child := r.value.value;
      DescendKey(old(rows), rows, old(lastId), old(cursors), cursors, c, path, name);
    }

    /** A new cursor for a path whose value does not fail. */
    method Visit(path: Path) returns (c: nat)
      requires Valid() && useDb && Exists(truth, path) && !truth(path).Fails?
      modifies this
      ensures Valid() && LogKept(old(log), log) && old(lastId) <= lastId && RowsAdded(old(rows), rows, old(lastId))
      ensures OnRow(c, path)
      decreases |path|
    {
      if path == [] {
        c := GetRoot();
      } else {
        var init, name := path[..|path| - 1], path[|path| - 1];
        assert path == init + [name];
        c := Visit(init);
        ghost var rows1, lastId1 := rows, lastId;
        c := Descend(c, init, name);
        AddedTwice(old(rows), rows1, rows, old(lastId), lastId1);
      }
    }

    /** A new cursor for a value that is not a set: it knows the value exactly if the path led to its row. */
    method VisitValue(path: Path) returns (c: nat)
      requires Valid() && useDb && Exists(truth, path) && !truth(path).Fails? && !truth(path).SetVal?
      modifies this
      ensures Valid() && LogKept(old(log), log) && OnRow(c, path)
      ensures Unknown(Loaded(rows, cursors, c)) <==> !HoldsValue(RowAt(old(rows), path))
      ensures HoldsValue(RowAt(old(rows), path)) ==>
                HoldsValue(RowAt(rows, path)) && Loaded(rows, cursors, c).value.1 == ReadBack(truth(path))
    {
      KeysAreOld(truth, rows, log, lastId);
      c := Visit(path);
      RowIsStored(truth, rows, log, lastId, path);
      VisitedRow(old(rows), rows, old(lastId), path, truth(path));
    }

    /**
     * Asking for the integer at a path, from a new root. The answer is the
     * integer as a C int if the path leads to its row, and the integer itself
     * otherwise; either way the path leads to its row afterwards.
     */
    method AskIntAt(path: Path) returns (r: Result<int, Error>)
      requires Valid() && useDb && Exists(truth, path) && truth(path).IntVal?
      modifies this
      ensures Valid() && LogKept(old(log), log)
      ensures r == Success(if HoldsValue(RowAt(old(rows), path)) then CInt(truth(path).n) else truth(path).n)
      ensures HoldsValue(RowAt(rows, path))
    {
      var c := VisitValue(path);
      ghost var rows1, log1, lastId1, key := rows, log, lastId, KeyOf(cursors, c);
      r := GetInt(c);
      AfterAsk(truth, rows1, rows, log1, lastId1, lastId, path, key, HoldsValue(RowAt(old(rows), path)));
    }

    /** The same for a path value: the row holds the absolute path. */
    method AskStringAt(path: Path) returns (r: Result<string, Error>)
      requires Valid() && useDb && Exists(truth, path) && truth(path).PathVal?
      modifies this
      ensures Valid() && LogKept(old(log), log)
      ensures r == Success(if HoldsValue(RowAt(old(rows), path)) then truth(path).abs else truth(path).shown)
      ensures HoldsValue(RowAt(rows, path))
    {
      var c := VisitValue(path);
      ghost var rows1, log1, lastId1, key := rows, log, lastId, KeyOf(cursors, c);
      r := GetString(c);
      AfterAsk(truth, rows1, rows, log1, lastId1, lastId, path, key, HoldsValue(RowAt(old(rows), path)));
    }

    /**
     * Evaluate, reopen the database in a later process and ask again: whatever
     * was in the database, the second answer is the integer as a C int, so it
     * is right if and only if the integer fits.
     */
    method AskIntTwice(path: Path) returns (first: Result<int, Error>, second: Result<int, Error>)
      requires Valid() && useDb && Exists(truth, path) && truth(path).IntVal?
      modifies this
      ensures Valid()
      ensures old(rows) == map[] ==> first == Success(truth(path).n)
      ensures second == Success(CInt(truth(path).n))
      ensures second == Success(truth(path).n) <==> FitsCInt(truth(path).n)
    {
      CIntExact(truth(path).n);
      EmptyTable(path);
      first := AskIntAt(path);
      Reopen();
      second := AskIntAt(path);
    }

    /** And for a path value: right if and only if both renderings are the same. */
    method AskStringTwice(path: Path) returns (first: Result<string, Error>, second: Result<string, Error>)
      requires Valid() && useDb && Exists(truth, path) && truth(path).PathVal?
      modifies this
      ensures Valid()
      ensures old(rows) == map[] ==> first == Success(truth(path).shown)
      ensures second == Success(truth(path).abs)
      ensures second == Success(truth(path).shown) <==> truth(path).abs == truth(path).shown
    {
      EmptyTable(path);
      first := AskStringAt(path);
      Reopen();
      second := AskStringAt(path);
    }
  }

  lemma EmptyTable(path: Path)
    ensures RowAt(map[], path) == None
  {
  }

  /** The integer that does not survive: 2 to the 31 comes back negative. */
  method WideInteger() returns (first: Result<int, Error>, second: Result<int, Error>)
    ensures first == Success(0x8000_0000) && second == Success(-0x8000_0000)
  {
    var truth: Truth := path => if path == [] then SetVal({"x"}) else IntVal(0x8000_0000);
    var cache := new AttrCache(truth, true);
    ExistsChild(truth, [], "x");
    assert [] + ["x"] == ["x"];
    first, second := cache.AskIntTwice(["x"]);
  }

  /** The path value that does not survive: it is shown one way and cached another. */
  method TwoRenderings() returns (first: Result<string, Error>, second: Result<string, Error>)
    ensures first == Success("shown") && second == Success("/abs")
  {
    var truth: Truth := path => if path == [] then SetVal({"x"}) else PathVal("/abs", "shown");
    var cache := new AttrCache(truth, true);
    ExistsChild(truth, [], "x");
    assert [] + ["x"] == ["x"];
    first, second := cache.AskStringTwice(["x"]);
  }

  /** The cursors made by going down a path, one for each name. */
  predicate Trail(cursors: seq<Cursor>, first: nat, end: nat, path: Path, rest: Path) {
    && first <= end <= |cursors| && end - first <= |rest|
    && forall k :: first <= k < end ==> cursors[k].path == path + rest[..k - first + 1]
  }

  lemma TrailStep(cursors: seq<Cursor>, cursors': seq<Cursor>, first: nat, path: Path, rest: Path)
    requires Trail(cursors, first, |cursors|, path, rest) && CursorsKept(cursors, cursors')
    requires |cursors'| == |cursors| || (|cursors'| == |cursors| + 1 && |cursors| - first < |rest|
                                         && cursors'[|cursors|].path == path + rest[..|cursors| - first + 1])
    ensures Trail(cursors', first, |cursors'|, path, rest)
  {
  }

  /** A child was found. */
  predicate Found(r: Result<Option<nat>, Error>) { r.Success? && r.value.Some? }

  /** A found child is one new cursor, the last one; otherwise there is none. */
  predicate OneMore(cursors: seq<Cursor>, cursors': seq<Cursor>, r: Result<Option<nat>, Error>) {
    if Found(r) then |cursors'| == |cursors| + 1 && r.value.value == |cursors| else |cursors'| == |cursors|
  }

  /** Neither the set nor, below its placeholder row, the attribute has a row. */
  predicate NoRow(rows: map<AttrKey, Row>, cursors: seq<Cursor>, c: nat, name: Name)
    requires c < |cursors|
  {
    match cursors[c].cached
    case None => KeyOf(cursors, c) !in rows
    case Some((id, v)) => v.VPlaceholder? && (id, name) !in rows
  }

  /** The parent remembers what it had loaded or the row written for it, and the new cursor its row below that. */
  predicate Linked(rows: map<AttrKey, Row>, cursors0: seq<Cursor>, loaded: Option<(AttrId, AttrValue)>,
                   cursors: seq<Cursor>, c: nat, name: Name)
    requires c < |cursors0|
  {
    && |cursors| == |cursors0| + 1 && cursors[c].cached.Some?
    && (loaded.Some? ==> cursors[c].cached == loaded)
    && (loaded.None? ==> KeyOf(cursors0, c) in rows && rows[KeyOf(cursors0, c)].id == cursors[c].cached.value.0)
    && cursors[|cursors0|].parent == Some((c, name))
    && (cursors[|cursors0|].cached.Some? ==>
          cursors[|cursors0|].cached == ReadRow(rows, (cursors[c].cached.value.0, name)))
  }

  /** What a cursor remembers does not change its own key. */
  lemma KeyOfSame(truth: Truth, useDb: bool, log: map<AttrId, Entry>, cursors: seq<Cursor>, c: nat,
                  cached: Option<(AttrId, AttrValue)>)
    requires CursorsOk(truth, useDb, log, cursors) && c < |cursors|
    ensures KeyOf(cursors[c := cursors[c].(cached := cached)], c) == KeyOf(cursors, c)
  {
    assert CursorOk(truth, useDb, log, cursors, c);
  }

  /** Going down by one name keeps a cursor tied to the row its path leads to. */
  lemma DescendKey(rows0: map<AttrKey, Row>, rows: map<AttrKey, Row>, lastId0: AttrId,
                   cursors0: seq<Cursor>, cursors: seq<Cursor>, c: nat, path: Path, name: Name)
    requires RowsAdded(rows0, rows, lastId0) && KeysOld(rows0, lastId0) && c < |cursors0|
    requires KeyAt(rows0, path) == Some(KeyOf(cursors0, c))
    requires Loaded(rows0, cursors0, c) == ReadRow(rows0, KeyOf(cursors0, c))
    requires Linked(rows, cursors0, Loaded(rows0, cursors0, c), cursors, c, name)
    ensures KeyAt(rows, path + [name]) == Some(KeyOf(cursors, |cursors0|))
    ensures Loaded(rows, cursors, |cursors0|) == ReadRow(rows, KeyOf(cursors, |cursors0|))
  {
    RowAtAdded(rows0, rows, lastId0, path);
    assert (path + [name])[..|path|] == path;
  }

  datatype Op =
    | Root | Child(c: nat, name: Name) | Find(c: nat, rest: Path)
    | AskString(c: nat) | AskBool(c: nat) | AskInt(c: nat) | AskAttrs(c: nat) | Force(c: nat)

  /** Answers, with the path of the cursor that was asked. */
  datatype Reply =
    | Ignored
    | Done
    | ChildIs(path: Path, name: Name, child: Result<Option<Path>, Error>)
    | FoundIs(path: Path, rest: Path, found: Result<Option<Path>, Error>)
    | StringIs(path: Path, str: Result<string, Error>)
    | BoolIs(path: Path, bool_: Result<bool, Error>)
    | IntIs(path: Path, int_: Result<int, Error>)
    | NamesAre(path: Path, names: Result<set<Name>, Error>)

  /**
   * The reply to an operation issued when there were `before` cursors, `after`
   * of them after it: exactly operations on unknown cursors are ignored, others
   * are answered for the cursor's path, in agreement with evaluation.
   */
  predicate Served(truth: Truth, useDb: bool, cursors: seq<Cursor>, before: nat, after: nat, op: Op, reply: Reply) {
    && before <= after <= |cursors|
    && (reply.Ignored? <==> !op.Root? && op.c >= before)
    && (reply.Ignored? ==> after == before)
    && (!reply.Ignored? ==> ReplyTo(op, if op.Root? then [] else cursors[op.c].path, reply))
    && ReplyAgrees(truth, useDb, reply) && Grown(cursors, before, after, op, reply)
  }

  /** A root and a found child are one new cursor each; a path gives one for each name, up to the first not found. */
  predicate Grown(cursors: seq<Cursor>, before: nat, after: nat, op: Op, reply: Reply)
    requires before <= after <= |cursors|
  {
    match op
    case Root => after == before + 1 && cursors[before].path == []
    case Child(_, _) =>
      if reply.ChildIs? && reply.child.Success? && reply.child.value.Some?
      then after == before + 1 && cursors[before].path == reply.child.value.value
      else after == before
    case Find(_, rest) =>
      && after <= before + |rest| && (after > before ==> op.c < before)
      && (after > before ==> Trail(cursors, before, after, cursors[op.c].path, rest))
      && (reply.FoundIs? && reply.found.Success? && reply.found.value.Some? ==>
            after == before + |rest| && (rest != [] ==> cursors[after - 1].path == reply.found.value.value))
    case _ => after == before
  }

  lemma ServedKept(truth: Truth, useDb: bool, cursors: seq<Cursor>, cursors': seq<Cursor>,
                   before: nat, after: nat, op: Op, reply: Reply)
    requires Served(truth, useDb, cursors, before, after, op, reply) && CursorsKept(cursors, cursors')
    ensures Served(truth, useDb, cursors', before, after, op, reply)
  {
  }

  /** The reply has the kind and the path that the operation asks for. */
  predicate ReplyTo(op: Op, path: Path, reply: Reply) {
    match op
    case Root => reply.Done?
    case Child(_, name) => reply.ChildIs? && reply.path == path && reply.name == name
    case Find(_, rest) => reply.FoundIs? && reply.path == path && reply.rest == rest
    case AskString(_) => reply.StringIs? && reply.path == path
    case AskBool(_) => reply.BoolIs? && reply.path == path
    case AskInt(_) => reply.IntIs? && reply.path == path
    case AskAttrs(_) => reply.NamesAre? && reply.path == path
    case Force(_) => reply.Done?
  }

  predicate ReplyAgrees(truth: Truth, useDb: bool, reply: Reply) {
    match reply
    case Ignored => true
    case Done => true
    case ChildIs(path, name, r) => ChildAgrees(truth, useDb, path, name, r)
    case FoundIs(path, rest, r) => FindAgrees(truth, useDb, path, rest, r)
    case StringIs(path, r) => StringAgrees(truth, useDb, path, r)
    case BoolIs(path, r) => BoolAgrees(truth, useDb, path, r)
    case IntIs(path, r) => IntAgrees(truth, useDb, path, r)
    case NamesAre(path, r) => NamesAgree(truth, useDb, path, r)
  }
}
