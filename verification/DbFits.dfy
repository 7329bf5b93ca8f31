/** When a row, and an edit of one, has no problem, field by field
    (internal/dbschema/dbschema.go, Validate and CheckEdit). */
module DbFits {
  import opened Text
  import opened DbSchema
  import opened DbEdit

  /** The i-th field is the one of its name: the first. */
  predicate FirstNamed(fields: seq<Field>, i: nat, name: string) {
    i < |fields| && fields[i].name == name && forall j :: 0 <= j < i ==> fields[j].name != name
  }

  lemma {:induction false} FieldOfIs(fields: seq<Field>, name: string)
    ensures FieldOf(fields, name).None? <==> forall i :: 0 <= i < |fields| ==> fields[i].name != name
    ensures forall i: nat :: FirstNamed(fields, i, name) ==> FieldOf(fields, name) == Some(fields[i])
    ensures FieldOf(fields, name).Some? ==> exists i: nat :: FirstNamed(fields, i, name)
  {
    if fields != [] {
      var rest := fields[1..];
      FieldOfIs(rest, name);
      forall i: nat | FirstNamed(fields, i, name) ensures FieldOf(fields, name) == Some(fields[i]) {
        if i > 0 { assert fields[0].name != name && FirstNamed(rest, i - 1, name); }
      }
      if fields[0].name == name {
        assert FirstNamed(fields, 0, name);
      } else if FieldOf(rest, name).Some? {
        var i: nat :| FirstNamed(rest, i, name);
        assert FirstNamed(fields, i + 1, name);
      }
    }
  }

  /** A link is anything between two brackets and two brackets. */
  lemma LinkIs(text: string)
    ensures IsLink(text) <==> exists inner: string :: text == "[[" + inner + "]]"
  {
    if IsLink(text) {
      assert text[0] == '[' && text[1] == '[' && text[|text| - 1] == ']' && text[|text| - 2] == ']';
      assert text == "[[" + text[2..|text| - 2] + "]]";
    }
  }

  /** A key and its value fit the schema: the field of its name is stored and takes the
      value; without such a field it is a key every row has, its title or its tags. */
  ghost predicate Fits(s: Schema, k: string, v: Value, r: Readers) {
    && (forall i: nat :: FirstNamed(s.fields, i, k) ==>
          s.fields[i].typ != TRollup && CheckValue(s.fields[i], v, r).None?)
    && ((forall i :: 0 <= i < |s.fields| ==> s.fields[i].name != k) ==> k in s.rows || k == "title" || k == "tags")
  }

  predicate Declares(s: Schema, name: string) { exists i :: 0 <= i < |s.fields| && s.fields[i].name == name }

  lemma FitsIs(s: Schema, k: string, v: Value, r: Readers)
    ensures KeyProblems(s, k, v, r) == [] <==> Fits(s, k, v, r)
  {
    FieldOfIs(s.fields, k);
  }

  /** A row has no problem exactly when each of its keys fits the schema, each required field
      that is stored has a value, not an empty text, and its id, where the schema declares one,
      shows as the name of its file. */
  lemma FineIs(s: Schema, base: string, row: map<string, Value>, keys: seq<string>, r: Readers)
    requires SortedKeys(keys, row)
    ensures Validated(s, base, row, keys, r) == [] <==>
              && (forall k :: k in row ==> Fits(s, k, row[k], r))
              && (forall i :: 0 <= i < |s.fields| && s.fields[i].required && s.fields[i].typ != TRollup ==>
                    s.fields[i].name in row && row[s.fields[i].name] != Null && row[s.fields[i].name] != Str(""))
              && (Declares(s, "id") && "id" in row ==> Shown(row["id"]) == base)
  {
    var ofKey := (k: string) => if k in row then KeyProblems(s, k, row[k], r) else [];
    var lacking := (f: Field) => if Lacks(f, row) then [Problem(f.name, Missing)] else [];
    EachEmpty(ofKey, keys);
    EachEmpty(lacking, s.fields);
    FieldOfIs(s.fields, "id");
    assert Validated(s, base, row, keys, r) == Each(ofKey, keys) + Each(lacking, s.fields)
           + (if FieldOf(s.fields, "id").Some? && "id" in row then IdProblem(base, row["id"]) else []);
    forall k | k in row ensures KeyProblems(s, k, row[k], r) == [] <==> Fits(s, k, row[k], r) {
      FitsIs(s, k, row[k], r);
    }
    AllOfKeys(s, row, keys, r, ofKey);
    AllOfFields(s.fields, row, lacking);
  }

  lemma AllOfKeys(s: Schema, row: map<string, Value>, keys: seq<string>, r: Readers, ofKey: string -> seq<Problem>)
    requires forall k :: k in keys <==> k in row
    requires forall k :: k in row ==> ofKey(k) == KeyProblems(s, k, row[k], r)
    ensures (forall i :: 0 <= i < |keys| ==> ofKey(keys[i]) == [])
            <==> forall k :: k in row ==> KeyProblems(s, k, row[k], r) == []
  {
    if forall i :: 0 <= i < |keys| ==> ofKey(keys[i]) == [] {
      forall k | k in row ensures KeyProblems(s, k, row[k], r) == [] {
        var i :| 0 <= i < |keys| && keys[i] == k;
        assert ofKey(keys[i]) == [];
      }
    } else {
      var i :| 0 <= i < |keys| && ofKey(keys[i]) != [];
      assert keys[i] in row && KeyProblems(s, keys[i], row[keys[i]], r) != [];
    }
  }

  lemma AllOfFields(fields: seq<Field>, row: map<string, Value>, lacking: Field -> seq<Problem>)
    requires forall f :: lacking(f) == if Lacks(f, row) then [Problem(f.name, Missing)] else []
    ensures (forall i :: 0 <= i < |fields| ==> lacking(fields[i]) == []) <==>
              forall i :: 0 <= i < |fields| && fields[i].required && fields[i].typ != TRollup ==>
                fields[i].name in row && row[fields[i].name] != Null && row[fields[i].name] != Str("")
  {
    forall i | 0 <= i < |fields|
      ensures lacking(fields[i]) == [] <==>
                (fields[i].required && fields[i].typ != TRollup ==>
                  fields[i].name in row && row[fields[i].name] != Null && row[fields[i].name] != Str(""))
    {
    }
  }

  /** An edit is accepted exactly when each key set fits the schema and is not emptied where
      it is required, the id shows as the name of the file, and no key removed is required. */
  lemma AcceptedIs(s: Schema, base: string, changes: map<string, Value>, keys: seq<string>, unset: seq<string>,
                   r: Readers)
    requires SortedKeys(keys, changes)
    ensures Checked(s, base, changes, keys, unset, r) == [] <==>
              && (forall k :: k in changes ==> SetFits(s, base, k, changes[k], r))
              && (forall k :: k in unset ==> MayGo(s, k))
  {
    AcceptsIs(s, base, changes, keys, unset, r);
    forall k | k in changes
      ensures SetProblems(s, base, k, changes[k], r) == [] <==> SetFits(s, base, k, changes[k], r)
    {
      SetFitsIs(s, base, k, changes[k], r);
    }
    forall k | k in unset ensures UnsetProblem(s, k) == [] <==> MayGo(s, k) { MayGoIs(s, k); }
  }

  /** The field of that name, if any, is not required. */
  ghost predicate MayGo(s: Schema, k: string) {
    forall i: nat :: FirstNamed(s.fields, i, k) ==> !s.fields[i].required
  }

  lemma MayGoIs(s: Schema, k: string)
    ensures UnsetProblem(s, k) == [] <==> MayGo(s, k)
  {
    FieldOfIs(s.fields, k);
  }

  lemma SetFitsIs(s: Schema, base: string, k: string, v: Value, r: Readers)
    ensures SetProblems(s, base, k, v, r) == [] <==> SetFits(s, base, k, v, r)
  {
    FieldOfIs(s.fields, k);
  }

  ghost predicate SetFits(s: Schema, base: string, k: string, v: Value, r: Readers) {
    && Fits(s, k, v, r)
    && (forall i: nat :: FirstNamed(s.fields, i, k) && s.fields[i].required ==> v != Null && v != Str(""))
    && (k == "id" && Declares(s, "id") ==> Shown(v) == base)
  }
}
