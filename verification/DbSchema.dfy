/** Rows of a database note against its schema (internal/dbschema/dbschema.go): checking a
    whole row, and checking an edit by the keys it names alone. */
module DbSchema {
  import opened Text

  // ----- Schemas and values -----

  datatype Type = TText | TNumber | TDate | TCheckbox | TSelect | TMultiSelect | TUrl | TRelation | TList | TRollup

  datatype Field = Field(name: string, typ: Type, options: seq<string>, required: bool)

  /** The fields declared, and the keys every row has (Rows). */
  datatype Schema = Schema(fields: seq<Field>, rows: set<string>)

  /** A value as JSON gives it, or as a note is read: a text, a list of texts, a map, or
      none. A number has the text fmt.Sprint shows and the one that is written, and a map
      the text fmt.Sprint shows. */
  datatype Value =
    | Null
    | Str(text: string)
    | Bool(on: bool)
    | Num(shown: string, written: string)
    | List(items: seq<Value>)
    | Map(display: string)

  /** What texts are numbers, ISO dates and http(s) URLs. */
  datatype Readers = Readers(number: string -> bool, date: string -> bool, url: string -> bool)

  function Words(b: bool): string { if b then "true" else "false" }

  /** fmt.Sprint. */
  function Shown(v: Value): string {
    match v
    case Null => "<nil>"
    case Str(text) => text
    case Bool(on) => Words(on)
    case Num(shown, _) => shown
    case List(items) => "[" + ShownItems(items) + "]"
    case Map(display) => display
  }

  function ShownItems(items: seq<Value>): string {
    if items == [] then ""
    else if |items| == 1 then Shown(items[0])
    else Shown(items[0]) + " " + ShownItems(items[1..])
  }

  /** Schema.Field: the first of the name. */
  function FieldOf(fields: seq<Field>, name: string): Option<Field> {
    if fields == [] then None
    else if fields[0].name == name then Some(fields[0])
    else FieldOf(fields[1..], name)
  }

  predicate Implicit(s: Schema, k: string) { k in s.rows || k == "title" || k == "tags" }

  predicate Computed(f: Field) { f.typ == TRollup }

  // ----- One value -----

  datatype Fault = NotNumber | NotDate | NotTrueFalse | NotOption(shown: string) | WantList | NotUrl | NotLink(shown: string)

  /** The first element that ok refuses. */
  function FirstBad(items: seq<Value>, ok: string -> bool): Option<string> {
    if items == [] then None
    else if !ok(Shown(items[0])) then Some(Shown(items[0]))
    else FirstBad(items[1..], ok)
  }

  function OptionOf(options: seq<string>): string -> bool { (text: string) => text in options }

  function AsList(v: Value): seq<Value> { if v.List? then v.items else [v] }

  predicate IsLink(text: string) {
    "[[" <= text && |text| >= 2 && text[|text| - 2..] == "]]"
  }

  /** checkValue: why v is no value of f. */
  function CheckValue(f: Field, v: Value, r: Readers): Option<Fault> {
    if v.Null? then None
    else
      match f.typ
      case TNumber => if v.Num? || (v.Str? && r.number(v.text)) then None else Some(NotNumber)
      case TDate => if v.Str? && r.date(v.text) then None else Some(NotDate)
      case TCheckbox => if v.Bool? || v == Str("true") || v == Str("false") then None else Some(NotTrueFalse)
      case TSelect => if Shown(v) in f.options then None else Some(NotOption(Shown(v)))
      case TMultiSelect =>
        if !v.List? then Some(WantList)
        else
          var bad := FirstBad(v.items, OptionOf(f.options));
          if bad.Some? then Some(NotOption(bad.value)) else None
      case TUrl => if r.url(Shown(v)) then None else Some(NotUrl)
      case TRelation =>
        var bad := FirstBad(AsList(v), IsLink);
        if bad.Some? then Some(NotLink(bad.value)) else None
      case TList => if v.List? then None else Some(WantList)
      case TText | TRollup => None
  }

  lemma {:induction false} NoneBad(items: seq<Value>, ok: string -> bool)
    ensures FirstBad(items, ok).None? <==> forall i :: 0 <= i < |items| ==> ok(Shown(items[i]))
  {
    if items != [] {
      NoneBad(items[1..], ok);
      assert items == [items[0]] + items[1..];
    }
  }

  /** What a field takes, value by value: anything empty; of a text, what its type reads in it;
      yes and no in a checkbox; a number in a number; a list in a list, of options or of links;
      and what is shown of any value where that is an option or a URL. */
  lemma TakesValues(f: Field, v: Value, r: Readers)
    ensures CheckValue(f, v, r).None? <==>
              match v
              case Null => true
              case Str(text) =>
                (match f.typ
                 case TNumber => r.number(text)
                 case TDate => r.date(text)
                 case TCheckbox => text == "true" || text == "false"
                 case TSelect => text in f.options
                 case TUrl => r.url(text)
                 case TRelation => IsLink(text)
                 case TMultiSelect | TList => false
                 case TText | TRollup => true)
              case Bool(on) =>
                (match f.typ
                 case TCheckbox | TText | TRollup => true
                 case TSelect => (if on then "true" else "false") in f.options
                 case TUrl => r.url(if on then "true" else "false")
                 case TNumber | TDate | TRelation | TMultiSelect | TList => false)
              case Num(shown, _) =>
                (match f.typ
                 case TNumber | TText | TRollup => true
                 case TSelect => shown in f.options
                 case TUrl => r.url(shown)
                 case TRelation => IsLink(shown)
                 case TDate | TCheckbox | TMultiSelect | TList => false)
              case List(items) =>
                (match f.typ
                 case TList | TText | TRollup => true
                 case TMultiSelect => forall i :: 0 <= i < |items| ==> Shown(items[i]) in f.options
                 case TRelation => forall i :: 0 <= i < |items| ==> IsLink(Shown(items[i]))
                 case TSelect => Shown(v) in f.options
                 case TUrl => r.url(Shown(v))
                 case TNumber | TDate | TCheckbox => false)
              case Map(display) =>
                (match f.typ
                 case TText | TRollup => true
                 case TSelect => display in f.options
                 case TUrl => r.url(display)
                 case TRelation => IsLink(display)
                 case TNumber | TDate | TCheckbox | TMultiSelect | TList => false)
  {
    if v.List? {
      NoneBad(v.items, OptionOf(f.options));
      NoneBad(v.items, IsLink);
    } else {
      assert FirstBad([v], IsLink).None? <==> IsLink(Shown(v)) by { NoneBad([v], IsLink); assert [v][0] == v; }
    }
  }

  // ----- Problems -----

  datatype Kind =
    | NotInSchema | IsComputed | Bad(fault: Fault)
    | Missing | EmptyRequired | RequiredRemoved | IdMismatch(shown: string)

  datatype Problem = Problem(field: string, kind: Kind)

  predicate IsEmpty(v: Value) { v == Null || v == Str("") }

  /** What Validate says of one key of a row. */
  function KeyProblems(s: Schema, k: string, v: Value, r: Readers): seq<Problem> {
    match FieldOf(s.fields, k)
    case None => if Implicit(s, k) then [] else [Problem(k, NotInSchema)]
    case Some(f) =>
      if Computed(f) then [Problem(k, IsComputed)]
      else
        var fault := CheckValue(f, v, r);
        if fault.Some? then [Problem(k, Bad(fault.value))] else []
  }

  function IdProblem(base: string, v: Value): seq<Problem> {
    if Shown(v) != base then [Problem("id", IdMismatch(Shown(v)))] else []
  }

  /** What CheckEdit says of one key it sets. */
  function SetProblems(s: Schema, base: string, k: string, v: Value, r: Readers): seq<Problem> {
    match FieldOf(s.fields, k)
    case None => if Implicit(s, k) then [] else [Problem(k, NotInSchema)]
    case Some(f) =>
      if Computed(f) then [Problem(k, IsComputed)]
      else if f.required && IsEmpty(v) then [Problem(k, EmptyRequired)]
      else KeyProblems(s, k, v, r) + (if k == "id" then IdProblem(base, v) else [])
  }

  function UnsetProblem(s: Schema, k: string): seq<Problem> {
    var f := FieldOf(s.fields, k);
    if f.Some? && f.value.required then [Problem(k, RequiredRemoved)] else []
  }

  predicate Lacks(f: Field, row: map<string, Value>) {
    f.required && !Computed(f) && (f.name !in row || IsEmpty(row[f.name]))
  }

  /** The problems each element gives, in order. */
  function Each<T>(f: T -> seq<Problem>, s: seq<T>): seq<Problem> {
    if s == [] then [] else Each(f, s[..|s| - 1]) + f(s[|s| - 1])
  }

  lemma {:induction false} EachIs<T>(f: T -> seq<Problem>, s: seq<T>, p: Problem)
    ensures p in Each(f, s) <==> exists i :: 0 <= i < |s| && p in f(s[i])
  {
    if s != [] {
      EachIs(f, s[..|s| - 1], p);
      assert forall i :: 0 <= i < |s| - 1 ==> s[..|s| - 1][i] == s[i];
    }
  }

  lemma EachSnoc<T>(f: T -> seq<Problem>, s: seq<T>, i: nat)
    requires i < |s|
    ensures Each(f, s[..i + 1]) == Each(f, s[..i]) + f(s[i])
  {
    assert s[..i + 1][..i] == s[..i];
  }

  /** Validate, the keys of the row read in this order. base is the file's name. */
  function Validated(s: Schema, base: string, row: map<string, Value>, keys: seq<string>, r: Readers): seq<Problem> {
    Each((k: string) => if k in row then KeyProblems(s, k, row[k], r) else [], keys)
    + Each((f: Field) => if Lacks(f, row) then [Problem(f.name, Missing)] else [], s.fields)
    + (if FieldOf(s.fields, "id").Some? && "id" in row then IdProblem(base, row["id"]) else [])
  }

  /** CheckEdit, the keys set read in this order. */
  function Checked(s: Schema, base: string, changes: map<string, Value>, keys: seq<string>, unset: seq<string>,
                   r: Readers): seq<Problem> {
    Each((k: string) => if k in changes then SetProblems(s, base, k, changes[k], r) else [], keys)
    + Each((k: string) => UnsetProblem(s, k), unset)
  }

  // ----- The loops -----

  ghost predicate SortedKeys(keys: seq<string>, m: map<string, Value>) {
    && (forall k :: k in keys <==> k in m)
    && forall i, j :: 0 <= i < j < |keys| ==> Less(keys[i], keys[j])
  }

  ghost predicate Rising(keys: seq<string>) { forall i, j :: 0 <= i < j < |keys| ==> Less(keys[i], keys[j]) }

  method InsertKey(keys: seq<string>, k: string) returns (r: seq<string>)
    requires Rising(keys) && k !in keys
    ensures Rising(r) && forall x :: x in r <==> x in keys || x == k
  {
    var i := 0;
    while i < |keys| && Less(keys[i], k)
      invariant 0 <= i <= |keys|
      invariant forall j :: 0 <= j < i ==> Less(keys[j], k)
    {
      i := i + 1;
    }
    forall j | i <= j < |keys| ensures Less(k, keys[j]) {
      LessTrichotomy(k, keys[i]);
      if i < j { LessTransitive(k, keys[i], keys[j]); }
    }
    r := keys[..i] + [k] + keys[i..];
    assert keys == keys[..i] + keys[i..];
  }

  /** The keys of a map in any order, then sorted. */
  method KeysOf(m: map<string, Value>) returns (keys: seq<string>)
    ensures SortedKeys(keys, m)
  {
    keys := [];
    var todo := m.Keys;
    while todo != {}
      invariant todo <= m.Keys && Rising(keys)
      invariant forall k :: k in keys <==> k in m.Keys - todo
      decreases |todo|
    {
      var k :| k in todo;
      keys := InsertKey(keys, k);
      todo := todo - {k};
    }
  }

  /** The three parts of Validate: the keys of the row, the fields of the schema, the id. */
  method Validate(s: Schema, base: string, row: map<string, Value>, r: Readers) returns (out: seq<Problem>)
    ensures exists keys :: SortedKeys(keys, row) && out == Validated(s, base, row, keys, r)
  {
    var keys := KeysOf(row);
    out := [];
    ghost var ofKey := (k: string) => if k in row then KeyProblems(s, k, row[k], r) else [];
    for i := 0 to |keys|
      invariant out == Each(ofKey, keys[..i])
    {
      EachSnoc(ofKey, keys, i);
      var f := FindField(s.fields, keys[i]);
      if f.None? {
        if !Implicit(s, keys[i]) { out := out + [Problem(keys[i], NotInSchema)]; }
      } else if Computed(f.value) {
        out := out + [Problem(keys[i], IsComputed)];
      } else {
        var fault := CheckValue(f.value, row[keys[i]], r);
        if fault.Some? { out := out + [Problem(keys[i], Bad(fault.value))]; }
      }
    }
    assert keys[..|keys|] == keys;
    var missing := MissingFields(s.fields, row);
    out := out + missing;
    var id := FindField(s.fields, "id");
    if id.Some? && "id" in row {
      out := out + IdProblem(base, row["id"]);
    }
  }

  method FindField(fields: seq<Field>, name: string) returns (f: Option<Field>)
    ensures f == FieldOf(fields, name)
  {
    for i := 0 to |fields|
      invariant FieldOf(fields, name) == FieldOf(fields[i..], name)
    {
      if fields[i].name == name { return Some(fields[i]); }
    }
    return None;
  }

  method MissingFields(fields: seq<Field>, row: map<string, Value>) returns (out: seq<Problem>)
    ensures out == Each((f: Field) => if Lacks(f, row) then [Problem(f.name, Missing)] else [], fields)
  {
    out := [];
    ghost var lacking := (f: Field) => if Lacks(f, row) then [Problem(f.name, Missing)] else [];
    for i := 0 to |fields|
      invariant out == Each(lacking, fields[..i])
    {
      EachSnoc(lacking, fields, i);
      if Lacks(fields[i], row) { out := out + [Problem(fields[i].name, Missing)]; }
    }
    assert fields[..|fields|] == fields;
  }

  /** The two loops of CheckEdit. */
  method CheckEdit(s: Schema, base: string, changes: map<string, Value>, unset: seq<string>,
                   r: Readers) returns (out: seq<Problem>)
    ensures exists keys :: SortedKeys(keys, changes) && out == Checked(s, base, changes, keys, unset, r)
  {
    var keys := KeysOf(changes);
    out := [];
    ghost var ofKey := (k: string) => if k in changes then SetProblems(s, base, k, changes[k], r) else [];
    for i := 0 to |keys|
      invariant out == Each(ofKey, keys[..i])
    {
      EachSnoc(ofKey, keys, i);
      var found := CheckKey(s, base, keys[i], changes[keys[i]], r);
      out := out + found;
    }
    assert keys[..|keys|] == keys;
    var removed := CheckUnset(s, unset);
    out := out + removed;
  }

  method CheckKey(s: Schema, base: string, k: string, v: Value, r: Readers) returns (out: seq<Problem>)
    ensures out == SetProblems(s, base, k, v, r)
  {
    out := [];
    var f := FindField(s.fields, k);
    if f.None? {
      if !Implicit(s, k) { out := [Problem(k, NotInSchema)]; }
      return;
    }
    if Computed(f.value) { return [Problem(k, IsComputed)]; }
    if f.value.required && IsEmpty(v) { return [Problem(k, EmptyRequired)]; }
    var fault := CheckValue(f.value, v, r);
    if fault.Some? { out := [Problem(k, Bad(fault.value))]; }
    if k == "id" { out := out + IdProblem(base, v); }
  }

  method CheckUnset(s: Schema, unset: seq<string>) returns (out: seq<Problem>)
    ensures out == Each((k: string) => UnsetProblem(s, k), unset)
  {
    out := [];
    ghost var ofKey := (k: string) => UnsetProblem(s, k);
    for i := 0 to |unset|
      invariant out == Each(ofKey, unset[..i])
    {
      EachSnoc(ofKey, unset, i);
      var f := FindField(s.fields, unset[i]);
      if f.Some? && f.value.required { out := out + [Problem(unset[i], RequiredRemoved)]; }
    }
    assert unset[..|unset|] == unset;
  }
}
