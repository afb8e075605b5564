/**
  What `#[derive(Entity)]` generates: which field becomes the id, how an entity is written to and
  read from a table, how it is looked up, and how its fields are encrypted where the backend
  stores plain values.
 */
module EntityDerive {
  import opened Base

  datatype FieldType = StringType | BytesType | OptionalBytesType | OtherType

  datatype Field = Field(name: string, column: Option<string>, id: bool, unencrypted: bool, typ: FieldType)

  datatype Error = AmbiguousId | NoId | UnsupportedType

  /** The id column, and the others in the order the generated code uses. */
  datatype Entity = Entity(id: Field, others: seq<Field>)

  predicate Explicit(f: Field) {
    f.id
  }

  predicate Implicit(f: Field) {
    !f.id && f.name == "id"
  }

  predicate IdSupported(f: Field) {
    f.typ.StringType? || f.typ.BytesType?
  }

  predicate Supported(f: Field) {
    !f.typ.OtherType?
  }

  /** Removes one element, putting the last one in its place. */
  function SwapRemove<T>(s: seq<T>, k: nat): (r: seq<T>)
    requires k < |s|
    ensures |r| == |s| - 1
  {
    var n := |s| - 1;
    if k == n then s[..n] else s[..k] + [s[n]] + s[k + 1..n]
  }

  lemma SwapRemovePermutes<T>(s: seq<T>, k: nat)
    requires k < |s|
    ensures multiset([s[k]] + SwapRemove(s, k)) == multiset(s)
  {
    var n := |s| - 1;
    assert s == s[..n] + [s[n]];
    if k != n {
      assert s == s[..k] + [s[k]] + s[k + 1..n] + [s[n]];
    }
  }

  /** At most one field is marked, and it is the id; with none marked, the field named `id` is. */
  ghost predicate Chosen(fields: seq<Field>, k: nat) {
    && k < |fields|
    && (forall i, j :: 0 <= i < j < |fields| ==> !(Explicit(fields[i]) && Explicit(fields[j])))
    && (Explicit(fields[k]) || (Implicit(fields[k]) && (forall i :: 0 <= i < |fields| ==> !Explicit(fields[i]))
                                && (forall i :: k < i < |fields| ==> !Implicit(fields[i]))))
  }

  method ParseColumns(fields: seq<Field>) returns (r: Result<Entity, Error>, ghost k: nat)
    ensures r == Err(AmbiguousId) <==>
            exists i, j :: 0 <= i < j < |fields| && Explicit(fields[i]) && Explicit(fields[j])
    ensures r == Err(NoId) <==> forall i :: 0 <= i < |fields| ==> !Explicit(fields[i]) && !Implicit(fields[i])
    ensures r.Ok? || r == Err(UnsupportedType) ==> Chosen(fields, k)
    ensures r.Ok? ==> r.value == Entity(fields[k], SwapRemove(fields, k))
    ensures r.Ok? <==>
            Chosen(fields, k) && IdSupported(fields[k]) && forall f :: f in SwapRemove(fields, k) ==> Supported(f)
    ensures r.Ok? ==> multiset([r.value.id] + r.value.others) == multiset(fields)
  {
    var explicit: Option<nat>, implicit: Option<nat> := None, None;
    k := 0;
    for i := 0 to |fields|
      invariant explicit.Some? ==> explicit.value < i && Explicit(fields[explicit.value])
      invariant implicit.Some? ==> implicit.value < i && Implicit(fields[implicit.value])
      invariant forall j :: 0 <= j < i && Explicit(fields[j]) ==> explicit == Some(j)
      invariant forall j :: 0 <= j < i && Implicit(fields[j]) ==> implicit.Some? && j <= implicit.value
    {
      if Explicit(fields[i]) {
        if explicit.Some? {
          return Err(AmbiguousId), k;
        }
        explicit := Some(i);
      } else if Implicit(fields[i]) {
        implicit := Some(i);
      }
    }
    var chosen := if explicit.Some? then explicit else implicit;
    if chosen.None? {
      return Err(NoId), k;
    }
    k := chosen.value;
    SwapRemovePermutes(fields, chosen.value);
    var others := SwapRemove(fields, chosen.value);
    if !IdSupported(fields[chosen.value]) || exists f :: f in others && !Supported(f) {
      return Err(UnsupportedType), k;
    }
    return Ok(Entity(fields[chosen.value], others)), k;
  }

  // ----- Rows -----

  /** Conversion between text and bytes. */
  datatype Utf8 = Utf8(bytes: string -> Bytes, text: Bytes -> Option<string>)

  ghost predicate Utf8Inverse(u: Utf8) {
    forall s: string :: u.text(u.bytes(s)) == Some(s)
  }

  datatype Value = Text(text: string) | Blob(blob: Bytes) | Opt(opt: Option<Bytes>)

  datatype Sql = SqlText(text: string) | SqlBlob(blob: Bytes) | SqlNull

  /** One instance of the struct: a value for every field name. */
  type Instance = map<string, Value>

  type Row = map<string, Sql>

  predicate HasType(v: Value, t: FieldType) {
    match t
    case StringType => v.Text?
    case BytesType => v.Blob?
    case OptionalBytesType => v.Opt?
    case OtherType => false
  }

  function Columns(e: Entity): (c: seq<Field>) {
    [e.id] + e.others
  }

  function SqlName(f: Field): (n: string) {
    if f.column.Some? then f.column.value else f.name
  }

  /** The generated code for an unencrypted column only type-checks for optional bytes. */
  predicate TypeChecks(e: Entity) {
    forall f :: f in e.others && f.unencrypted ==> f.typ.OptionalBytesType?
  }

  ghost predicate WellFormed(e: Entity) {
    && IdSupported(e.id) && (forall f :: f in e.others ==> Supported(f)) && TypeChecks(e)
    && (forall i, j :: 0 <= i < j < |Columns(e)| ==> Columns(e)[i].name != Columns(e)[j].name)
  }

  ghost predicate DistinctSqlNames(cols: seq<Field>) {
    forall i, j :: 0 <= i < j < |cols| ==> SqlName(cols[i]) != SqlName(cols[j])
  }

  ghost predicate InstanceOf(v: Instance, cols: seq<Field>) {
    && (forall f :: f in cols ==> f.name in v && HasType(v[f.name], f.typ))
    && (forall n :: n in v ==> exists f :: f in cols && f.name == n)
  }

  function ToSql(v: Value): (s: Sql) {
    match v
    case Text(t) => SqlText(t)
    case Blob(b) => SqlBlob(b)
    case Opt(o) => if o.Some? then SqlBlob(o.value) else SqlNull
  }

  function FromSql(t: FieldType, s: Sql): (v: Option<Value>) {
    match t
    case StringType => if s.SqlText? then Some(Text(s.text)) else None
    case BytesType => if s.SqlBlob? then Some(Blob(s.blob)) else None
    case OptionalBytesType =>
      if s.SqlBlob? then Some(Opt(Some(s.blob))) else if s.SqlNull? then Some(Opt(None)) else None
    case OtherType => None
  }

  /** The column names of the INSERT statement. */
  function InsertNames(cols: seq<Field>): (n: seq<string>)
    ensures |n| == |cols|
  {
    seq(|cols|, i requires 0 <= i < |cols| => SqlName(cols[i]))
  }

  /** The values bound to its placeholders. */
  function InsertValues(cols: seq<Field>, v: Instance): (s: seq<Sql>)
    requires forall f :: f in cols ==> f.name in v
    ensures |s| == |cols|
  {
    seq(|cols|, i requires 0 <= i < |cols| => ToSql(v[cols[i].name]))
  }

  /** The database pairs names and values by position. */
  function Pair(names: seq<string>, values: seq<Sql>): (row: Row)
    requires |names| == |values|
  {
    if names == [] then map[]
    else var n := |names| - 1; Pair(names[..n], values[..n])[names[n] := values[n]]
  }

  function InsertRow(cols: seq<Field>, v: Instance): (row: Row)
    requires forall f :: f in cols ==> f.name in v
  {
    Pair(InsertNames(cols), InsertValues(cols, v))
  }

  function LoadRow(cols: seq<Field>, row: Row): (v: Option<Instance>) {
    if cols == [] then Some(map[])
    else
      var n := |cols| - 1;
      var f, before := cols[n], LoadRow(cols[..n], row);
      var got := if SqlName(f) in row then FromSql(f.typ, row[SqlName(f)]) else None;
      if before.None? || got.None? then None else Some(before.value[f.name := got.value])
  }

  lemma {:induction false} PairHolds(names: seq<string>, values: seq<Sql>, k: nat)
    requires |names| == |values| && k < |names| && Distinct(names)
    ensures names[k] in Pair(names, values) && Pair(names, values)[names[k]] == values[k]
  {
    var n := |names| - 1;
    if k < n {
      PairHolds(names[..n], values[..n], k);
    }
  }

  lemma {:induction false} LoadRowReads(cols: seq<Field>, row: Row, v: Instance)
    requires forall f :: f in cols ==>
             f.name in v && SqlName(f) in row && FromSql(f.typ, row[SqlName(f)]) == Some(v[f.name])
    ensures LoadRow(cols, row).Some?
    ensures var r := LoadRow(cols, row).value;
            && (forall n :: n in r <==> exists f :: f in cols && f.name == n)
            && (forall n :: n in r ==> n in v && r[n] == v[n])
  {
    if cols != [] {
      var n := |cols| - 1;
      assert cols == cols[..n] + [cols[n]];
      LoadRowReads(cols[..n], row, v);
    }
  }

  lemma FieldSaved(cols: seq<Field>, v: Instance, k: nat)
    requires DistinctSqlNames(cols) && InstanceOf(v, cols) && k < |cols|
    ensures var f, row := cols[k], InsertRow(cols, v);
            SqlName(f) in row && FromSql(f.typ, row[SqlName(f)]) == Some(v[f.name])
  {
    PairHolds(InsertNames(cols), InsertValues(cols, v), k);
    assert cols[k] in cols;
  }

  /** Each value lies in the column its attribute names, or else in the one named like the field. */
  lemma StoredInColumn(cols: seq<Field>, v: Instance, f: Field)
    requires DistinctSqlNames(cols) && InstanceOf(v, cols) && f in cols
    ensures var row := InsertRow(cols, v);
            var name := match f.column case Some(given) => given case None => f.name;
            && name in row
            && row[name] == match v[f.name]
                            case Text(t) => SqlText(t)
                            case Blob(b) => SqlBlob(b)
                            case Opt(Some(b)) => SqlBlob(b)
                            case Opt(None) => SqlNull
  {
    var k :| 0 <= k < |cols| && cols[k] == f;
    PairHolds(InsertNames(cols), InsertValues(cols, v), k);
  }

  /** An instance is determined by its values at the fields. */
  lemma SameInstance(cols: seq<Field>, r: Instance, v: Instance)
    requires InstanceOf(v, cols)
    requires forall f :: f in cols ==> f.name in r
    requires forall n :: n in r ==> n in v && r[n] == v[n]
    ensures r == v
  {
    forall n | n in v ensures n in r {
      var f :| f in cols && f.name == n;
    }
  }

  /** With distinct column names, what is saved is what is loaded. */
  lemma SaveLoad(cols: seq<Field>, v: Instance)
    requires DistinctSqlNames(cols) && InstanceOf(v, cols)
    ensures LoadRow(cols, InsertRow(cols, v)) == Some(v)
  {
    var row := InsertRow(cols, v);
    forall f | f in cols ensures SqlName(f) in row && FromSql(f.typ, row[SqlName(f)]) == Some(v[f.name]) {
      var k :| 0 <= k < |cols| && cols[k] == f;
      FieldSaved(cols, v, k);
    }
    LoadRowReads(cols, row, v);
    SameInstance(cols, LoadRow(cols, row).value, v);
  }

  // ----- Tables -----

  /** `KeyType::bytes` of the id. */
  function KeyBytes(u: Utf8, v: Value): (b: Bytes) {
    match v
    case Text(t) => u.bytes(t)
    case Blob(b) => b
    case Opt(_) => []
  }

  function IdValue(e: Entity, v: Instance): (r: Value)
    requires InstanceOf(v, Columns(e))
  {
    assert e.id in Columns(e);
    v[e.id.name]
  }

  function DropId(e: Entity, table: seq<Row>, id: Sql): (r: seq<Row>) {
    if table == [] then []
    else if SqlName(e.id) in table[0] && table[0][SqlName(e.id)] == id then DropId(e, table[1..], id)
    else [table[0]] + DropId(e, table[1..], id)
  }

  /** INSERT OR REPLACE. */
  function Upsert(e: Entity, table: seq<Row>, v: Instance): (r: seq<Row>)
    requires InstanceOf(v, Columns(e))
  {
    DropId(e, table, ToSql(IdValue(e, v))) + [InsertRow(Columns(e), v)]
  }

  /** SELECT ... WHERE id = ?, with the key bound as bytes. */
  function SelectByKey(e: Entity, table: seq<Row>, key: Bytes): (r: Option<Row>) {
    if table == [] then None
    else if SqlName(e.id) in table[0] && table[0][SqlName(e.id)] == SqlBlob(key) then Some(table[0])
    else SelectByKey(e, table[1..], key)
  }

  /** DELETE ... WHERE id = ?, with the key bound as bytes. */
  function DeleteByKey(e: Entity, table: seq<Row>, key: Bytes): (r: seq<Row>) {
    DropId(e, table, SqlBlob(key))
  }

  /** Every row was written by the generated code. */
  ghost predicate TableOf(e: Entity, table: seq<Row>) {
    forall row :: row in table ==> exists v :: InstanceOf(v, Columns(e)) && row == InsertRow(Columns(e), v)
  }

  lemma IdColumnHolds(e: Entity, v: Instance)
    requires DistinctSqlNames(Columns(e)) && InstanceOf(v, Columns(e))
    ensures var row := InsertRow(Columns(e), v);
            SqlName(e.id) in row && row[SqlName(e.id)] == ToSql(IdValue(e, v))
  {
    PairHolds(InsertNames(Columns(e)), InsertValues(Columns(e), v), 0);
  }

  lemma {:induction false} DropIdRemoves(e: Entity, table: seq<Row>, id: Sql, row: Row)
    ensures row in DropId(e, table, id) <==> row in table && !(SqlName(e.id) in row && row[SqlName(e.id)] == id)
  {
    if table != [] {
      DropIdRemoves(e, table[1..], id, row);
      assert row in table <==> row == table[0] || row in table[1..];
    }
  }

  lemma {:induction false} SelectFinds(e: Entity, table: seq<Row>, last: Row, key: Bytes)
    requires forall row :: row in table ==> !(SqlName(e.id) in row && row[SqlName(e.id)] == SqlBlob(key))
    ensures SelectByKey(e, table + [last], key) ==
            if SqlName(e.id) in last && last[SqlName(e.id)] == SqlBlob(key) then Some(last) else None
  {
    if table == [] {
      assert (table + [last])[1..] == [];
    } else {
      assert table[0] in table;
      assert (table + [last])[1..] == table[1..] + [last];
      SelectFinds(e, table[1..], last, key);
    }
  }

  lemma TextIdsAreNotBlobs(e: Entity, table: seq<Row>, row: Row)
    requires DistinctSqlNames(Columns(e)) && TableOf(e, table) && row in table && e.id.typ.StringType?
    ensures SqlName(e.id) in row && row[SqlName(e.id)].SqlText?
  {
    var v :| InstanceOf(v, Columns(e)) && row == InsertRow(Columns(e), v);
    IdColumnHolds(e, v);
    assert e.id in Columns(e);
  }

  /** `load_all`: every row, in order. */
  function LoadTable(e: Entity, table: seq<Row>): (r: Option<seq<Instance>>) {
    if table == [] then Some([])
    else
      var first, rest := LoadRow(Columns(e), table[0]), LoadTable(e, table[1..]);
      if first.None? || rest.None? then None else Some([first.value] + rest.value)
  }

  /** The entities with another id. */
  function OthersThan(e: Entity, list: seq<Instance>, id: Value): (r: seq<Instance>) {
    if list == [] then []
    else
      var rest := OthersThan(e, list[1..], id);
      if e.id.name in list[0] && list[0][e.id.name] == id then rest else [list[0]] + rest
  }

  /** What one row of a table holds, and that its id column tells ids apart. */
  lemma RowOf(e: Entity, table: seq<Row>, row: Row, id: Value) returns (x: Instance)
    requires IdSupported(e.id) && DistinctSqlNames(Columns(e)) && TableOf(e, table)
    requires row in table && HasType(id, e.id.typ)
    ensures InstanceOf(x, Columns(e)) && LoadRow(Columns(e), row) == Some(x) && e.id.name in x
    ensures SqlName(e.id) in row && (row[SqlName(e.id)] == ToSql(id) <==> x[e.id.name] == id)
  {
    x :| InstanceOf(x, Columns(e)) && row == InsertRow(Columns(e), x);
    SaveLoad(Columns(e), x);
    IdColumnHolds(e, x);
    assert e.id in Columns(e);
  }

  lemma {:induction false} LoadDropped(e: Entity, table: seq<Row>, id: Value)
    requires IdSupported(e.id) && DistinctSqlNames(Columns(e)) && TableOf(e, table) && HasType(id, e.id.typ)
    ensures LoadTable(e, table).Some?
    ensures LoadTable(e, DropId(e, table, ToSql(id))) == Some(OthersThan(e, LoadTable(e, table).value, id))
  {
    if table != [] {
      assert TableOf(e, table[1..]) by {
        assert forall row :: row in table[1..] ==> row in table;
      }
      LoadDropped(e, table[1..], id);
      var x := RowOf(e, table, table[0], id);
      assert LoadTable(e, table).value == [x] + LoadTable(e, table[1..]).value;
    }
  }

  lemma {:induction false} LoadAppended(e: Entity, table: seq<Row>, row: Row)
    requires LoadTable(e, table).Some? && LoadRow(Columns(e), row).Some?
    ensures LoadTable(e, table + [row]) == Some(LoadTable(e, table).value + [LoadRow(Columns(e), row).value])
  {
    if table == [] {
      var last, none: seq<Instance> := LoadRow(Columns(e), row).value, [];
      assert (table + [row])[1..] == [] && [last] + none == none + [last];
    } else {
      assert (table + [row])[1..] == table[1..] + [row];
      LoadAppended(e, table[1..], row);
      var x, rest, last :=
        LoadRow(Columns(e), table[0]).value, LoadTable(e, table[1..]).value, LoadRow(Columns(e), row).value;
      assert [x] + (rest + [last]) == [x] + rest + [last];
    }
  }

  /** Loading the whole table after a save gives the other entities, in order, and the one saved. */
  lemma SaveLoadAll(e: Entity, table: seq<Row>, v: Instance)
    requires IdSupported(e.id) && DistinctSqlNames(Columns(e)) && TableOf(e, table) && InstanceOf(v, Columns(e))
    ensures LoadTable(e, table).Some?
    ensures LoadTable(e, Upsert(e, table, v)) == Some(OthersThan(e, LoadTable(e, table).value, IdValue(e, v)) + [v])
  {
    assert e.id in Columns(e);
    LoadDropped(e, table, IdValue(e, v));
    SaveLoad(Columns(e), v);
    LoadAppended(e, DropId(e, table, ToSql(IdValue(e, v))), InsertRow(Columns(e), v));
  }

  /** A saved entity is found again by its key exactly when its id is not a string. */
  lemma FoundByKeyIff(u: Utf8, e: Entity, table: seq<Row>, v: Instance)
    requires IdSupported(e.id) && DistinctSqlNames(Columns(e)) && TableOf(e, table) && InstanceOf(v, Columns(e))
    ensures match IdValue(e, v)
            case Blob(key) =>
              var found := SelectByKey(e, Upsert(e, table, v), key);
              e.id.typ == BytesType && found.Some? && LoadRow(Columns(e), found.value) == Some(v)
            case Text(t) => e.id.typ == StringType && SelectByKey(e, Upsert(e, table, v), u.bytes(t)).None?
            case Opt(_) => false
  {
    var id, key := ToSql(IdValue(e, v)), KeyBytes(u, IdValue(e, v));
    var kept, row := DropId(e, table, id), InsertRow(Columns(e), v);
    assert e.id in Columns(e);
    IdColumnHolds(e, v);
    forall r | r in kept ensures !(SqlName(e.id) in r && r[SqlName(e.id)] == SqlBlob(key)) {
      DropIdRemoves(e, table, id, r);
      if e.id.typ.StringType? { TextIdsAreNotBlobs(e, table, r); }
    }
    SelectFinds(e, kept, row, key);
    SaveLoad(Columns(e), v);
  }

  /** Deleting by key removes the entity exactly when its id is not a string. */
  lemma DeletedByKeyIff(u: Utf8, e: Entity, table: seq<Row>, v: Instance)
    requires IdSupported(e.id) && DistinctSqlNames(Columns(e)) && TableOf(e, table) && InstanceOf(v, Columns(e))
    requires InsertRow(Columns(e), v) in table
    ensures match IdValue(e, v)
            case Blob(key) => e.id.typ == BytesType && InsertRow(Columns(e), v) !in DeleteByKey(e, table, key)
            case Text(t) => e.id.typ == StringType && InsertRow(Columns(e), v) in DeleteByKey(e, table, u.bytes(t))
            case Opt(_) => false
  {
    IdColumnHolds(e, v);
    assert e.id in Columns(e);
    DropIdRemoves(e, table, SqlBlob(KeyBytes(u, IdValue(e, v))), InsertRow(Columns(e), v));
  }

  // ----- Encrypted form -----

  /** Authenticated encryption: additional data is the id of the entity. */
  datatype Cipher = Cipher(encrypt: (Bytes, Bytes, Bytes) -> Bytes, decrypt: (Bytes, Bytes) -> Option<Bytes>)

  ghost predicate Invertible(c: Cipher) {
    forall aad: Bytes, nonce: Bytes, m: Bytes :: c.decrypt(aad, c.encrypt(aad, nonce, m)) == Some(m)
  }

  function EncryptField(u: Utf8, c: Cipher, aad: Bytes, nonce: Bytes, f: Field, v: Value): (r: Value) {
    match v
    case Text(t) => Blob(c.encrypt(aad, nonce, u.bytes(t)))
    case Blob(b) => Blob(c.encrypt(aad, nonce, b))
    case Opt(o) => Opt(if o.None? || f.unencrypted then o else Some(c.encrypt(aad, nonce, o.value)))
  }

  function DecryptField(u: Utf8, c: Cipher, aad: Bytes, f: Field, v: Value): (r: Option<Value>) {
    match f.typ
    case StringType =>
      if !v.Blob? || c.decrypt(aad, v.blob).None? || u.text(c.decrypt(aad, v.blob).value).None? then None
      else Some(Text(u.text(c.decrypt(aad, v.blob).value).value))
    case BytesType =>
      if !v.Blob? || c.decrypt(aad, v.blob).None? then None else Some(Blob(c.decrypt(aad, v.blob).value))
    case OptionalBytesType =>
      if !v.Opt? then None
      else if v.opt.None? || f.unencrypted then Some(v)
      else if c.decrypt(aad, v.opt.value).None? then None else Some(Opt(c.decrypt(aad, v.opt.value)))
    case OtherType => None
  }

  /** The id stays in the clear; every other field is encrypted under it. */
  function EncryptAll(
    u: Utf8, c: Cipher, aad: Bytes, nonce: string -> Bytes, others: seq<Field>, v: Instance
  ): (r: Instance)
    requires forall f :: f in others ==> f.name in v
  {
    if others == [] then map[]
    else
      var n := |others| - 1;
      var f := others[n];
      EncryptAll(u, c, aad, nonce, others[..n], v)[f.name := EncryptField(u, c, aad, nonce(f.name), f, v[f.name])]
  }

  function Encrypt(u: Utf8, c: Cipher, nonce: string -> Bytes, e: Entity, v: Instance): (r: Instance)
    requires InstanceOf(v, Columns(e))
  {
    assert forall f :: f in e.others ==> f in Columns(e);
    EncryptAll(u, c, KeyBytes(u, IdValue(e, v)), nonce, e.others, v)[e.id.name := IdValue(e, v)]
  }

  function DecryptAll(u: Utf8, c: Cipher, aad: Bytes, others: seq<Field>, x: Instance): (r: Option<Instance>) {
    if others == [] then Some(map[])
    else
      var n := |others| - 1;
      var f, before := others[n], DecryptAll(u, c, aad, others[..n], x);
      var got := if f.name in x then DecryptField(u, c, aad, f, x[f.name]) else None;
      if before.None? || got.None? then None else Some(before.value[f.name := got.value])
  }

  function Decrypt(u: Utf8, c: Cipher, e: Entity, x: Instance): (r: Option<Instance>) {
    if e.id.name !in x then None
    else
      var rest := DecryptAll(u, c, KeyBytes(u, x[e.id.name]), e.others, x);
      if rest.None? then None else Some(rest.value[e.id.name := x[e.id.name]])
  }

  lemma FieldRoundTrip(u: Utf8, c: Cipher, aad: Bytes, nonce: Bytes, f: Field, v: Value)
    requires Utf8Inverse(u) && Invertible(c) && HasType(v, f.typ)
    ensures DecryptField(u, c, aad, f, EncryptField(u, c, aad, nonce, f, v)) == Some(v)
  {
  }

  lemma {:induction false} EncryptedFields(
    u: Utf8, c: Cipher, aad: Bytes, nonce: string -> Bytes, others: seq<Field>, v: Instance, f: Field)
    requires forall g :: g in others ==> g.name in v
    requires forall i, j :: 0 <= i < j < |others| ==> others[i].name != others[j].name
    requires f in others
    ensures var x := EncryptAll(u, c, aad, nonce, others, v);
            f.name in x && x[f.name] == EncryptField(u, c, aad, nonce(f.name), f, v[f.name])
  {
    var n := |others| - 1;
    if f != others[n] {
      var k :| 0 <= k < |others| && others[k] == f;
      assert f in others[..n];
      EncryptedFields(u, c, aad, nonce, others[..n], v, f);
    }
  }

  lemma {:induction false} DecryptedFields(u: Utf8, c: Cipher, aad: Bytes, others: seq<Field>, x: Instance, v: Instance)
    requires forall f :: f in others ==>
             f.name in x && f.name in v && DecryptField(u, c, aad, f, x[f.name]) == Some(v[f.name])
    ensures DecryptAll(u, c, aad, others, x).Some?
    ensures var r := DecryptAll(u, c, aad, others, x).value;
            && (forall n :: n in r <==> exists f :: f in others && f.name == n)
            && (forall n :: n in r ==> n in v && r[n] == v[n])
  {
    if others != [] {
      var n := |others| - 1;
      assert others == others[..n] + [others[n]];
      DecryptedFields(u, c, aad, others[..n], x, v);
    }
  }

  lemma OthersDiffer(e: Entity)
    requires WellFormed(e)
    ensures forall i, j :: 0 <= i < j < |e.others| ==> e.others[i].name != e.others[j].name
    ensures forall f :: f in e.others ==> f in Columns(e) && f.name != e.id.name
  {
    var cols := Columns(e);
    forall i | 0 <= i < |e.others| ensures e.others[i] in cols && e.others[i].name != e.id.name {
      assert cols[i + 1] == e.others[i] && cols[0].name != cols[i + 1].name;
    }
    forall i, j | 0 <= i < j < |e.others| ensures e.others[i].name != e.others[j].name {
      assert cols[i + 1].name != cols[j + 1].name;
    }
  }

  lemma EncryptedFieldDecrypts(u: Utf8, c: Cipher, nonce: string -> Bytes, e: Entity, v: Instance, f: Field)
    requires Utf8Inverse(u) && Invertible(c) && WellFormed(e) && InstanceOf(v, Columns(e)) && f in e.others
    ensures var x := Encrypt(u, c, nonce, e, v);
            && f.name in v && f.name in x
            && DecryptField(u, c, KeyBytes(u, IdValue(e, v)), f, x[f.name]) == Some(v[f.name])
  {
    OthersDiffer(e);
    var aad := KeyBytes(u, IdValue(e, v));
    EncryptedFields(u, c, aad, nonce, e.others, v, f);
    FieldRoundTrip(u, c, aad, nonce(f.name), f, v[f.name]);
  }

  /** Only the id and the columns that skip encryption stay readable; the rest is encrypted under the id. */
  lemma EncryptedForm(u: Utf8, c: Cipher, nonce: string -> Bytes, e: Entity, v: Instance, f: Field)
    requires WellFormed(e) && InstanceOf(v, Columns(e)) && f in e.others
    ensures var x := Encrypt(u, c, nonce, e, v);
            var aad := match IdValue(e, v) case Text(t) => u.bytes(t) case Blob(b) => b case Opt(_) => [];
            && e.id.name in x && x[e.id.name] == IdValue(e, v)
            && f.name in v && f.name in x
            && match v[f.name]
               case Text(t) => x[f.name] == Blob(c.encrypt(aad, nonce(f.name), u.bytes(t)))
               case Blob(b) => x[f.name] == Blob(c.encrypt(aad, nonce(f.name), b))
               case Opt(None) => x[f.name] == Opt(None)
               case Opt(Some(b)) =>
                 x[f.name] == Opt(Some(if f.unencrypted then b else c.encrypt(aad, nonce(f.name), b)))
  {
    OthersDiffer(e);
    EncryptedFields(u, c, KeyBytes(u, IdValue(e, v)), nonce, e.others, v, f);
  }

  lemma DecryptsTo(u: Utf8, c: Cipher, e: Entity, x: Instance, v: Instance)
    requires InstanceOf(v, Columns(e))
    requires e.id.name in x && e.id.name in v && x[e.id.name] == v[e.id.name]
    requires forall f :: f in e.others ==>
               && f.name in x && f.name in v
               && DecryptField(u, c, KeyBytes(u, x[e.id.name]), f, x[f.name]) == Some(v[f.name])
    ensures Decrypt(u, c, e, x) == Some(v)
  {
    DecryptedFields(u, c, KeyBytes(u, x[e.id.name]), e.others, x, v);
    var r := Decrypt(u, c, e, x).value;
    forall f | f in Columns(e) ensures f.name in r {
      assert f == e.id || f in e.others;
    }
    SameInstance(Columns(e), r, v);
  }

  /** Decrypting what was encrypted gives the entity back. */
  lemma EncryptDecrypt(u: Utf8, c: Cipher, nonce: string -> Bytes, e: Entity, v: Instance)
    requires Utf8Inverse(u) && Invertible(c) && WellFormed(e) && InstanceOf(v, Columns(e))
    ensures Decrypt(u, c, e, Encrypt(u, c, nonce, e, v)) == Some(v)
  {
    assert e.id in Columns(e);
    var x := Encrypt(u, c, nonce, e, v);
    assert x[e.id.name] == IdValue(e, v);
    forall f | f in e.others
      ensures f.name in v && f.name in x
      ensures DecryptField(u, c, KeyBytes(u, x[e.id.name]), f, x[f.name]) == Some(v[f.name])
    {
      EncryptedFieldDecrypts(u, c, nonce, e, v, f);
    }
    DecryptsTo(u, c, e, x, v);
  }
}
