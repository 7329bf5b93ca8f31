/** An edit is checked by its own keys alone, and the row it leaves by all of them: what the
    one says of the other (internal/dbschema/dbschema.go, CheckEdit and Validate). */
module DbEdit {
  import opened Text
  import opened DbSchema

  /** The row once the keys of unset are gone and those of changes have these values. */
  function Edited(row: map<string, Value>, changes: map<string, Value>, unset: seq<string>): map<string, Value> {
    (map k | k in row && k !in unset :: row[k]) + changes
  }

  /** Edits name no key to set and to remove. */
  predicate Apart(changes: map<string, Value>, unset: seq<string>) { forall k :: k in unset ==> k !in changes }

  // ----- What the two checks say, in no order -----

  /** p is one of the problems of the row. */
  ghost predicate HasProblem(s: Schema, base: string, row: map<string, Value>, r: Readers, p: Problem) {
    || (p.field in row && p in KeyProblems(s, p.field, row[p.field], r))
    || (p.kind == Missing && exists f :: f in s.fields && f.name == p.field && Lacks(f, row))
    || (p.field == "id" && FieldOf(s.fields, "id").Some? && "id" in row && p in IdProblem(base, row["id"]))
  }

  /** Whatever the order of the keys, Validate tells exactly the problems of the row. */
  lemma ValidatedIs(s: Schema, base: string, row: map<string, Value>, keys: seq<string>, r: Readers, p: Problem)
    requires forall k :: k in keys <==> k in row
    ensures p in Validated(s, base, row, keys, r) <==> HasProblem(s, base, row, r, p)
  {
    KeysTell(s, row, keys, r, p);
    FieldsTell(s, row, p);
  }

  lemma KeysTell(s: Schema, row: map<string, Value>, keys: seq<string>, r: Readers, p: Problem)
    requires forall k :: k in keys <==> k in row
    ensures p in Each((k: string) => if k in row then KeyProblems(s, k, row[k], r) else [], keys)
            <==> p.field in row && p in KeyProblems(s, p.field, row[p.field], r)
  {
    var ofKey := (k: string) => if k in row then KeyProblems(s, k, row[k], r) else [];
    EachIs(ofKey, keys, p);
    if p.field in row && p in KeyProblems(s, p.field, row[p.field], r) {
      var i :| 0 <= i < |keys| && keys[i] == p.field;
      assert p in ofKey(keys[i]);
    }
    if i :| 0 <= i < |keys| && p in ofKey(keys[i]) {
      assert p in KeyProblems(s, keys[i], row[keys[i]], r) && p.field == keys[i];
    }
  }

  lemma FieldsTell(s: Schema, row: map<string, Value>, p: Problem)
    ensures p in Each((f: Field) => if Lacks(f, row) then [Problem(f.name, Missing)] else [], s.fields)
            <==> p.kind == Missing && exists f :: f in s.fields && f.name == p.field && Lacks(f, row)
  {
    var lacking := (f: Field) => if Lacks(f, row) then [Problem(f.name, Missing)] else [];
    EachIs(lacking, s.fields, p);
    if i :| 0 <= i < |s.fields| && p in lacking(s.fields[i]) {
      assert s.fields[i] in s.fields;
    }
    if p.kind == Missing {
      if f :| f in s.fields && f.name == p.field && Lacks(f, row) {
        var i :| 0 <= i < |s.fields| && s.fields[i] == f;
        assert p in lacking(s.fields[i]);
      }
    }
  }

  /** CheckEdit finds nothing of an edit. */
  ghost predicate Accepts(s: Schema, base: string, changes: map<string, Value>, unset: seq<string>, r: Readers) {
    && (forall k :: k in changes ==> SetProblems(s, base, k, changes[k], r) == [])
    && (forall k :: k in unset ==> UnsetProblem(s, k) == [])
  }

  lemma {:induction false} EachEmpty<T>(f: T -> seq<Problem>, s: seq<T>)
    ensures Each(f, s) == [] <==> forall i :: 0 <= i < |s| ==> f(s[i]) == []
  {
    if s != [] {
      EachEmpty(f, s[..|s| - 1]);
      assert forall i :: 0 <= i < |s| - 1 ==> s[..|s| - 1][i] == s[i];
    }
  }

  lemma AcceptsIs(s: Schema, base: string, changes: map<string, Value>, keys: seq<string>, unset: seq<string>,
                  r: Readers)
    requires forall k :: k in keys <==> k in changes
    ensures Checked(s, base, changes, keys, unset, r) == [] <==> Accepts(s, base, changes, unset, r)
  {
    var ofKey := (k: string) => if k in changes then SetProblems(s, base, k, changes[k], r) else [];
    var ofUnset := (k: string) => UnsetProblem(s, k);
    EachEmpty(ofKey, keys);
    EachEmpty(ofUnset, unset);
    if Checked(s, base, changes, keys, unset, r) == [] {
      assert Each(ofKey, keys) == [] && Each(ofUnset, unset) == [];
      forall k | k in changes ensures SetProblems(s, base, k, changes[k], r) == [] {
        var i :| 0 <= i < |keys| && keys[i] == k;
        assert ofKey(keys[i]) == [];
      }
      forall k | k in unset ensures UnsetProblem(s, k) == [] {
        var i :| 0 <= i < |unset| && unset[i] == k;
        assert ofUnset(unset[i]) == [];
      }
    }
  }

  // ----- What an accepted edit does to the problems of a row -----

  /** A field that must be there is so by the first of its name, the one an edit is checked
      by. Parse lets a name be declared twice. */
  predicate FirstsRequire(s: Schema) {
    forall f :: f in s.fields && f.required && !Computed(f) ==> FirstRequires(s, f)
  }

  predicate FirstRequires(s: Schema, f: Field) {
    FieldOf(s.fields, f.name).Some? && FieldOf(s.fields, f.name).value.required
  }

  lemma AcceptedLeaves(s: Schema, base: string, row: map<string, Value>, changes: map<string, Value>,
                       unset: seq<string>, r: Readers, p: Problem)
    requires FirstsRequire(s) && Apart(changes, unset) && Accepts(s, base, changes, unset, r)
    ensures HasProblem(s, base, Edited(row, changes, unset), r, p) <==>
              HasProblem(s, base, row, r, p) && p.field !in changes && p.field !in unset
  {
  }

  /** An accepted edit leaves exactly the problems the row had, but for those of the keys it
      names: so a row with problems elsewhere can be edited, and an edit adds none. */
  lemma EditAddsNoProblem(s: Schema, base: string, row: map<string, Value>, rowKeys: seq<string>,
                          changes: map<string, Value>, setKeys: seq<string>, unset: seq<string>,
                          afterKeys: seq<string>, r: Readers)
    requires FirstsRequire(s) && Apart(changes, unset)
    requires SortedKeys(rowKeys, row) && SortedKeys(setKeys, changes)
    requires SortedKeys(afterKeys, Edited(row, changes, unset))
    requires Checked(s, base, changes, setKeys, unset, r) == []
    ensures forall p :: p in Validated(s, base, Edited(row, changes, unset), afterKeys, r) <==>
                          p in Validated(s, base, row, rowKeys, r) && p.field !in changes && p.field !in unset
  {
    var after := Edited(row, changes, unset);
    AcceptsIs(s, base, changes, setKeys, unset, r);
    forall p ensures p in Validated(s, base, after, afterKeys, r) <==>
                       p in Validated(s, base, row, rowKeys, r) && p.field !in changes && p.field !in unset
    {
      ValidatedIs(s, base, row, rowKeys, r, p);
      ValidatedIs(s, base, after, afterKeys, r, p);
      AcceptedLeaves(s, base, row, changes, unset, r, p);
    }
  }

  /** For a row without problems, checking an edit by its keys is checking the row it
      leaves: either both find nothing or neither does. */
  lemma EditIsRowEdited(s: Schema, base: string, row: map<string, Value>, rowKeys: seq<string>,
                        changes: map<string, Value>,
                        setKeys: seq<string>, unset: seq<string>, afterKeys: seq<string>, r: Readers)
    requires FirstsRequire(s) && Apart(changes, unset)
    requires forall f :: f in s.fields && Computed(f) ==> !f.required
    requires SortedKeys(rowKeys, row) && SortedKeys(setKeys, changes) && SortedKeys(afterKeys, Edited(row, changes, unset))
    requires Validated(s, base, row, rowKeys, r) == []
    ensures Checked(s, base, changes, setKeys, unset, r) == []
            <==> Validated(s, base, Edited(row, changes, unset), afterKeys, r) == []
  {
    var after := Edited(row, changes, unset);
    AcceptsIs(s, base, changes, setKeys, unset, r);
    NoneIs(s, base, row, rowKeys, r);
    NoneIs(s, base, after, afterKeys, r);
    if Accepts(s, base, changes, unset, r) {
      forall p ensures !HasProblem(s, base, after, r, p) { AcceptedLeaves(s, base, row, changes, unset, r, p); }
    } else if forall p :: !HasProblem(s, base, after, r, p) {
      FineIsAccepted(s, base, row, changes, unset, r);
    }
  }

  lemma NoneIs(s: Schema, base: string, row: map<string, Value>, keys: seq<string>, r: Readers)
    requires SortedKeys(keys, row)
    ensures Validated(s, base, row, keys, r) == [] <==> forall p :: !HasProblem(s, base, row, r, p)
  {
    var out := Validated(s, base, row, keys, r);
    forall p ensures p in out <==> HasProblem(s, base, row, r, p) { ValidatedIs(s, base, row, keys, r, p); }
    if out != [] { assert out[0] in out; }
  }

  /** What leaves a row without problems is accepted. */
  lemma FineIsAccepted(s: Schema, base: string, row: map<string, Value>, changes: map<string, Value>,
                       unset: seq<string>, r: Readers)
    requires Apart(changes, unset) && forall f :: f in s.fields && Computed(f) ==> !f.required
    requires forall p :: !HasProblem(s, base, Edited(row, changes, unset), r, p)
    ensures Accepts(s, base, changes, unset, r)
  {
    var after := Edited(row, changes, unset);
    forall k | k in changes ensures SetProblems(s, base, k, changes[k], r) == [] {
      FineKey(s, base, after, k, r);
    }
    forall k | k in unset ensures UnsetProblem(s, k) == [] {
      FineGone(s, base, after, k, r);
    }
  }

  lemma {:induction false} FieldIsIn(fields: seq<Field>, name: string)
    requires FieldOf(fields, name).Some?
    ensures FieldOf(fields, name).value in fields && FieldOf(fields, name).value.name == name
  {
    if fields[0].name != name {
      FieldIsIn(fields[1..], name);
    }
  }

  lemma FineKey(s: Schema, base: string, row: map<string, Value>, k: string, r: Readers)
    requires k in row && forall p :: !HasProblem(s, base, row, r, p)
    ensures SetProblems(s, base, k, row[k], r) == []
  {
    var told := KeyProblems(s, k, row[k], r);
    if told != [] { assert HasProblem(s, base, row, r, told[0]); }
    if FieldOf(s.fields, k).Some? {
      FieldIsIn(s.fields, k);
      var f := FieldOf(s.fields, k).value;
      assert Lacks(f, row) ==> HasProblem(s, base, row, r, Problem(k, Missing));
      if k == "id" && IdProblem(base, row[k]) != [] {
        assert HasProblem(s, base, row, r, IdProblem(base, row[k])[0]);
      }
    }
  }

  lemma FineGone(s: Schema, base: string, row: map<string, Value>, k: string, r: Readers)
    requires k !in row && forall p :: !HasProblem(s, base, row, r, p)
    requires forall f :: f in s.fields && Computed(f) ==> !f.required
    ensures UnsetProblem(s, k) == []
  {
    if FieldOf(s.fields, k).Some? {
      FieldIsIn(s.fields, k);
      var f := FieldOf(s.fields, k).value;
      assert Lacks(f, row) ==> HasProblem(s, base, row, r, Problem(k, Missing));
    }
  }

  /** The condition on the schema is exact: where a field that must be there is hidden by
      one of its name that need not, removing it is accepted and leaves the row without it. */
  lemma HiddenRequiredIsMissed(s: Schema, f: Field, base: string, row: map<string, Value>, afterKeys: seq<string>, r: Readers)
    requires f in s.fields && f.required && !Computed(f) && !FirstRequires(s, f)
    requires SortedKeys(afterKeys, Edited(row, map[], [f.name]))
    ensures Checked(s, base, map[], [], [f.name], r) == []
    ensures Problem(f.name, Missing) in Validated(s, base, Edited(row, map[], [f.name]), afterKeys, r)
  {
    AcceptsIs(s, base, map[], [], [f.name], r);
    assert Lacks(f, Edited(row, map[], [f.name]));
    ValidatedIs(s, base, Edited(row, map[], [f.name]), afterKeys, r, Problem(f.name, Missing));
  }

  // ----- Values as JSON gives them, and as they are read back -----

  predicate Plain(v: Value) { v.Str? || v.Bool? || v.Num? }

  /** The text that is written of a text, a number or a boolean. */
  function TextOf(v: Value): string
    requires Plain(v)
  {
    if v.Str? then v.text else if v.Bool? then Words(v.on) else v.written
  }

  function TextsOf(items: seq<Value>): seq<Value>
    requires forall i :: 0 <= i < |items| ==> Plain(items[i])
  {
    seq(|items|, i requires 0 <= i < |items| => Str(TextOf(items[i])))
  }

  /** What a value set is read back as; other lists and maps are refused. */
  function ReadBack(v: Value): Option<Value> {
    match v
    case Null => Some(Null)
    case List(items) => if forall i :: 0 <= i < |items| ==> Plain(items[i]) then Some(List(TextsOf(items))) else None
    case Map(_) => None
    case _ => Some(Str(TextOf(v)))
  }

  /** A number whose text as it is written is the one fmt.Sprint shows, and reads as one:
      1000000 is shown as 1e+06. */
  predicate ShownAsWritten(v: Value, r: Readers) {
    match v
    case Num(shown, written) => shown == written && written != "" && r.number(written)
    case List(items) => forall i :: 0 <= i < |items| && items[i].Num? ==> items[i].shown == items[i].written
    case _ => true
  }

  lemma {:induction false} TextsShown(items: seq<Value>, ok: string -> bool)
    requires forall i :: 0 <= i < |items| ==> Plain(items[i])
    requires forall i :: 0 <= i < |items| && items[i].Num? ==> items[i].shown == items[i].written
    ensures ShownItems(TextsOf(items)) == ShownItems(items)
    ensures FirstBad(TextsOf(items), ok) == FirstBad(items, ok)
  {
    if items != [] {
      TextsShown(items[1..], ok);
      assert TextsOf(items)[1..] == TextsOf(items[1..]);
    }
  }

  lemma ShownReadBack(v: Value, r: Readers)
    requires ReadBack(v).Some? && ShownAsWritten(v, r)
    ensures Shown(ReadBack(v).value) == Shown(v)
    ensures IsEmpty(ReadBack(v).value) == IsEmpty(v)
  {
    if v.List? { TextsShown(v.items, IsLink); }
  }

  lemma ScalarAccepted(f: Field, v: Value, w: Value, r: Readers)
    requires Plain(v) && w.Str? && w.text == Shown(v) && (v.Num? ==> r.number(w.text))
    requires CheckValue(f, v, r) == None
    ensures CheckValue(f, w, r) == None
  {
    match f.typ
    case TRelation => assert FirstBad([w], IsLink) == FirstBad([v], IsLink);
    case TNumber | TDate | TCheckbox | TSelect | TMultiSelect | TUrl | TList | TText | TRollup =>
  }

  /** What CheckValue says of a list, from what is shown of it and its first bad elements. */
  function ListFault(f: Field, shown: string, url: bool, option: Option<string>, link: Option<string>): Option<Fault> {
    match f.typ
    case TNumber => Some(NotNumber)
    case TDate => Some(NotDate)
    case TCheckbox => Some(NotTrueFalse)
    case TSelect => if shown in f.options then None else Some(NotOption(shown))
    case TMultiSelect => if option.Some? then Some(NotOption(option.value)) else None
    case TUrl => if url then None else Some(NotUrl)
    case TRelation => if link.Some? then Some(NotLink(link.value)) else None
    case TList | TText | TRollup => None
  }

  lemma ListFaultIs(f: Field, v: Value, r: Readers)
    requires v.List?
    ensures CheckValue(f, v, r)
         == ListFault(f, Shown(v), r.url(Shown(v)), FirstBad(v.items, OptionOf(f.options)), FirstBad(v.items, IsLink))
  {
  }

  lemma ListAccepted(f: Field, v: Value, w: Value, r: Readers)
    requires v.List? && w.List? && Shown(w) == Shown(v)
    requires FirstBad(w.items, IsLink) == FirstBad(v.items, IsLink)
    requires FirstBad(w.items, OptionOf(f.options)) == FirstBad(v.items, OptionOf(f.options))
    ensures CheckValue(f, w, r) == CheckValue(f, v, r)
  {
    ListFaultIs(f, v, r);
    ListFaultIs(f, w, r);
  }

  lemma ValueReadBack(f: Field, v: Value, r: Readers)
    requires ReadBack(v).Some? && ShownAsWritten(v, r)
    requires CheckValue(f, v, r) == None
    ensures CheckValue(f, ReadBack(v).value, r) == None
  {
    ShownReadBack(v, r);
    if v.List? {
      TextsShown(v.items, IsLink);
      TextsShown(v.items, OptionOf(f.options));
      ListAccepted(f, v, ReadBack(v).value, r);
    } else if !v.Null? {
      ScalarAccepted(f, v, ReadBack(v).value, r);
    }
  }

  /** A value accepted is accepted as it is read back. */
  lemma ReadBackIsAccepted(s: Schema, base: string, k: string, v: Value, r: Readers)
    requires ReadBack(v).Some? && ShownAsWritten(v, r)
    requires SetProblems(s, base, k, v, r) == []
    ensures SetProblems(s, base, k, ReadBack(v).value, r) == []
  {
    ShownReadBack(v, r);
    if FieldOf(s.fields, k).Some? && CheckValue(FieldOf(s.fields, k).value, v, r) == None {
      ValueReadBack(FieldOf(s.fields, k).value, v, r);
    }
  }

  function AllReadBack(changes: map<string, Value>): map<string, Value>
    requires forall k :: k in changes ==> ReadBack(changes[k]).Some?
  {
    map k | k in changes :: ReadBack(changes[k]).value
  }

  /** An edit of a row without problems that is accepted, with its values as JSON gives
      them, leaves the row without problems, its values as they are read back. */
  lemma AcceptedEditKeepsRow(s: Schema, base: string, row: map<string, Value>, rowKeys: seq<string>,
                             changes: map<string, Value>, setKeys: seq<string>, unset: seq<string>,
                             afterKeys: seq<string>, r: Readers)
    requires FirstsRequire(s) && Apart(changes, unset)
    requires forall k :: k in changes ==> ReadBack(changes[k]).Some? && ShownAsWritten(changes[k], r)
    requires SortedKeys(rowKeys, row) && SortedKeys(setKeys, changes)
    requires SortedKeys(afterKeys, Edited(row, AllReadBack(changes), unset))
    requires Validated(s, base, row, rowKeys, r) == []
    requires Checked(s, base, changes, setKeys, unset, r) == []
    ensures Validated(s, base, Edited(row, AllReadBack(changes), unset), afterKeys, r) == []
  {
    var read := AllReadBack(changes);
    AcceptsIs(s, base, changes, setKeys, unset, r);
    NoneIs(s, base, row, rowKeys, r);
    NoneIs(s, base, Edited(row, read, unset), afterKeys, r);
    forall k | k in read ensures SetProblems(s, base, k, read[k], r) == [] {
      ReadBackIsAccepted(s, base, k, changes[k], r);
    }
    forall p ensures !HasProblem(s, base, Edited(row, read, unset), r, p) {
      AcceptedLeaves(s, base, row, read, unset, r, p);
    }
  }

  /** The condition on numbers is needed: one shown otherwise than it is written is accepted
      as an option shown so, and refused once it is read back. */
  lemma NumberReadOtherwise(k: string, base: string, shown: string, written: string, r: Readers)
    requires shown != written && k != "id"
    ensures var s := Schema([Field(k, TSelect, [shown], false)], {});
            var changes := map[k := Num(shown, written)];
            && Checked(s, base, changes, [k], [], r) == []
            && Problem(k, Bad(NotOption(written))) in Validated(s, base, Edited(map[], AllReadBack(changes), []), [k], r)
  {
    var s := Schema([Field(k, TSelect, [shown], false)], {});
    var changes := map[k := Num(shown, written)];
    AcceptsIs(s, base, changes, [k], [], r);
    ValidatedIs(s, base, Edited(map[], AllReadBack(changes), []), [k], r, Problem(k, Bad(NotOption(written))));
  }
}
