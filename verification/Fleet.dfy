/** Tasks and the columns of a board (internal/fleet/task.go, board.go). */
module Fleet {
  import opened Text

  /** A state, as the note writes it: Other is any text that is none. */
  datatype Status =
    Backlog | Submitted | Working | InputRequired | Review | Completed | Failed | Canceled | Other(name: string)

  predicate Ended(s: Status) { s in {Completed, Failed, Canceled} }

  /** What the server reads of a task: leaseUntil is None for no time, rank is 0
      for none. */
  datatype Task = Task(
    path: string, board: string, column: string, rank: real, status: Status, team: string,
    claimedBy: string, leaseUntil: Option<int>, dependsOn: seq<string>, attempts: int)

  /** The state a task is in is of a board's column. */
  datatype Column = Column(name: string, status: Status)

  datatype Board = Board(path: string, columns: seq<Column>)

  /** strings.EqualFold, on ASCII. */
  function LowerChar(c: char): char { if 'A' <= c <= 'Z' then c + 32 as char else c }

  function Lower(s: string): (r: string)
    ensures |r| == |s|
  {
    if s == "" then "" else [LowerChar(s[0])] + Lower(s[1..])
  }

  predicate SameName(a: string, b: string) { Lower(a) == Lower(b) }

  /** The same letter, in either case, or the same character. */
  predicate SameLetter(a: char, b: char) {
    || a == b
    || ('A' <= a <= 'Z' && b as int == a as int + 32)
    || ('A' <= b <= 'Z' && a as int == b as int + 32)
  }

  lemma {:induction false} LowerIs(s: string)
    ensures forall i :: 0 <= i < |s| ==> Lower(s)[i] == LowerChar(s[i])
  {
    if s != "" { LowerIs(s[1..]); }
  }

  /** Two names are the same when their letters are, whatever their case. */
  lemma SameNameIs(a: string, b: string)
    ensures SameName(a, b) <==> |a| == |b| && forall i :: 0 <= i < |a| ==> SameLetter(a[i], b[i])
  {
    LowerIs(a);
    LowerIs(b);
    if |a| == |b| {
      forall i | 0 <= i < |a| ensures SameLetter(a[i], b[i]) <==> Lower(a)[i] == Lower(b)[i] {}
    }
  }

  /** Board.Column: the first column of that name, in any case. */
  function ColumnNamed(cs: seq<Column>, name: string): Option<Column> {
    if cs == [] then None
    else if SameName(cs[0].name, TrimSpace(name)) then Some(cs[0])
    else ColumnNamed(cs[1..], name)
  }

  /** Board.First: the first column of status. */
  function First(cs: seq<Column>, status: Status): (r: Option<Column>)
    ensures r.Some? ==> exists i :: 0 <= i < |cs| && cs[i] == r.value && cs[i].status == status
                                    && forall j :: 0 <= j < i ==> cs[j].status != status
    ensures r.None? ==> forall c :: c in cs ==> c.status != status
  {
    if cs == [] then None else if cs[0].status == status then Some(cs[0]) else First(cs[1..], status)
  }

  /** Target: where a card goes, None when it is refused. */
  function Target(b: Board, cur: Task, column: string, status: Option<Status>): Option<Column> {
    if column != "" then
      var c := ColumnNamed(b.columns, column);
      if c.None? || (status.Some? && status.value != c.value.status) then None else c
    else
      var s := if status.Some? then status.value else cur.status;
      var c := ColumnNamed(b.columns, cur.column);
      if c.Some? && c.value.status == s then c
      else if First(b.columns, s).Some? then First(b.columns, s)
      else if Ended(s) then Some(Column("", s))
      else None
  }

  /** The column a card is in, "" for none. */
  function ColumnOf(b: Board, t: Task): string {
    var c := Target(b, t, "", None);
    if c.None? then "" else c.value.name
  }

  /** The column of a name is the first of it. */
  lemma {:induction false} NamedIsThere(cs: seq<Column>, name: string)
    ensures var c := ColumnNamed(cs, name);
            && (c.None? <==> forall x :: x in cs ==> !SameName(x.name, TrimSpace(name)))
            && (c.Some? ==> exists i :: 0 <= i < |cs| && cs[i] == c.value && SameName(cs[i].name, TrimSpace(name))
                                        && forall j :: 0 <= j < i ==> !SameName(cs[j].name, TrimSpace(name)))
  {
    if cs != [] {
      NamedIsThere(cs[1..], name);
      assert cs == [cs[0]] + cs[1..];
    }
  }

  /** c is the first column of its state. */
  predicate FirstOf(b: Board, c: Column) {
    exists i :: 0 <= i < |b.columns| && b.columns[i] == c && forall j :: 0 <= j < i ==> b.columns[j].status != c.status
  }

  /** A card never goes to a column that is not of the board, or that its state does
      not agree with: a closed card may have no column. With no column named it stays in
      its own when that has the state, and else goes to the first that has it. */
  lemma TargetAgrees(b: Board, cur: Task, column: string, status: Option<Status>)
    ensures var c := Target(b, cur, column, status);
            c.Some? ==>
              && (c.value in b.columns || (c.value.name == "" && c.value.status in {Completed, Failed, Canceled}))
              && (status.Some? ==> c.value.status == status.value)
              && (column == "" && status.None? ==> c.value.status == cur.status)
              && (column == "" ==>
                    var own := ColumnNamed(b.columns, cur.column);
                    if own.Some? && own.value.status == c.value.status then c == own
                    else FirstOf(b, c.value) || forall x :: x in b.columns ==> x.status != c.value.status)
              && (column != "" ==> c.value in b.columns && SameName(c.value.name, TrimSpace(column)))
  {
    NamedIsThere(b.columns, column);
    NamedIsThere(b.columns, cur.column);
  }

  /** A move is refused exactly when the board has no column for it: not the one
      named or not with that state, or none for an open state. */
  lemma TargetRefuses(b: Board, cur: Task, column: string, status: Option<Status>)
    ensures Target(b, cur, column, status).None? <==>
              if column != "" then
                ColumnNamed(b.columns, column).None? || (status.Some? && status.value != ColumnNamed(b.columns, column).value.status)
              else
                var s := if status.Some? then status.value else cur.status;
                s !in {Completed, Failed, Canceled} && forall c :: c in b.columns ==> c.status != s
  {
    if column == "" { NamedIsThere(b.columns, cur.column); }
  }
}
