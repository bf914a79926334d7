/**
 * The `expenses` table as an immutable value: its rows in rowid order and the
 * AUTOINCREMENT counter, with insertion and deletion by id.
 */
module Ledger {
  import opened Wrappers
  import opened Seqs

  /** The three NOT NULL columns of a row, before the table assigns an id. */
  datatype Entry = Entry(date: string, category: string, amount: real)

  /** A stored row: its `id INTEGER PRIMARY KEY AUTOINCREMENT` and its columns. */
  datatype Expense = Expense(id: int, entry: Entry)

  /**
   * The table. `rows` are in rowid order, the order a plain `SELECT *` scans
   * them; `nextId` is one more than the largest id ever assigned, which
   * AUTOINCREMENT remembers even after that row is deleted.
   */
  datatype Store = Store(rows: seq<Expense>, nextId: int)

  /** The largest rowid SQLite can assign (a signed 64-bit integer). */
  const MaxRowId: int := 0x7FFF_FFFF_FFFF_FFFF

  /** A freshly created table: no rows, and the first id will be 1. */
  const EmptyStore: Store := Store([], 1)

  /** Insertion fails when AUTOINCREMENT has used up the largest rowid (SQLITE_FULL). */
  datatype StoreError = TableFull

  predicate IdsIncreasing(rows: seq<Expense>) {
    forall i, j | 0 <= i < j < |rows| :: rows[i].id < rows[j].id
  }

  /** Every id is positive, below the counter, and ids increase along the rows (so they are unique). */
  predicate Valid(st: Store) {
    && 1 <= st.nextId <= MaxRowId + 1
    && (forall i | 0 <= i < |st.rows| :: 1 <= st.rows[i].id < st.nextId)
    && IdsIncreasing(st.rows)
  }

  lemma EmptyStoreValid()
    ensures Valid(EmptyStore) && |EmptyStore.rows| == 0
  {
  }

  /** A valid store holds no two rows with the same id. */
  lemma {:induction false} IdsUnique(st: Store, x: Expense, y: Expense)
    requires Valid(st) && x in st.rows && y in st.rows && x.id == y.id
    ensures x == y
  {
    var i :| 0 <= i < |st.rows| && st.rows[i] == x;
    var j :| 0 <= j < |st.rows| && st.rows[j] == y;
    assert i == j;
  }

  /** `INSERT INTO expenses (date, category, amount) VALUES (?, ?, ?)`, returning the new store and the assigned id. */
  function Insert(st: Store, e: Entry): (r: Result<(Store, int), StoreError>)
    requires Valid(st)
    ensures r.Failure? <==> st.nextId > MaxRowId
    ensures r.Success? ==>
      var (st', id) := r.value;
      && Valid(st')
      && st'.rows == st.rows + [Expense(id, e)]
      && (forall x | x in st.rows :: x.id < id)
      && st.nextId <= id < st'.nextId
  {
    if st.nextId > MaxRowId then Failure(TableFull)
    else Success((Store(st.rows + [Expense(st.nextId, e)], st.nextId + 1), st.nextId))
  }

  /** Dropping rows keeps the ids in increasing order. */
  lemma {:induction false} SubseqIdsIncreasing(a: seq<Expense>, b: seq<Expense>)
    requires IsSubseq(a, b) && IdsIncreasing(b)
    ensures IdsIncreasing(a)
    decreases |b|
  {
    if |a| > 0 {
      assert IdsIncreasing(b[1..]);
      if a[0] == b[0] && IsSubseq(a[1..], b[1..]) {
        SubseqIdsIncreasing(a[1..], b[1..]);
        SubseqMembers(a[1..], b[1..]);
        forall i, j | 0 <= i < j < |a|
          ensures a[i].id < a[j].id
        {
          if i > 0 {
            assert a[i] == a[1..][i - 1] && a[j] == a[1..][j - 1];
          } else {
            assert a[j] in a[1..];
            assert a[j] in b[1..];
          }
        }
      } else {
        SubseqIdsIncreasing(a, b[1..]);
      }
    }
  }

  /** `DELETE FROM expenses WHERE id = ?` for every id in `ids`. */
  function DeleteIds(st: Store, ids: set<int>): (r: Store)
    requires Valid(st)
    ensures Valid(r) && r.nextId == st.nextId
    ensures forall x | x in r.rows :: x in st.rows && x.id !in ids
    ensures forall x | x in st.rows && x.id !in ids :: x in r.rows
    ensures IsSubseq(r.rows, st.rows)
  {
    var kept := Filter(st.rows, (x: Expense) => x.id !in ids);
    SubseqIdsIncreasing(kept, st.rows);
    SubseqMembers(kept, st.rows);
    assert forall i | 0 <= i < |kept| :: kept[i] in st.rows;
    Store(kept, st.nextId)
  }

  /** Deleting one batch of ids after another is deleting their union. */
  lemma DeleteIdsTwice(st: Store, a: set<int>, b: set<int>)
    requires Valid(st)
    ensures DeleteIds(DeleteIds(st, a), b) == DeleteIds(st, a + b)
  {
    FilterTwice(st.rows, (x: Expense) => x.id !in a, (x: Expense) => x.id !in b, (x: Expense) => x.id !in a + b);
  }

  /** Deleting ids that no row carries changes nothing. */
  lemma {:induction false} DeleteAbsentIds(st: Store, ids: set<int>)
    requires Valid(st)
    requires forall x | x in st.rows :: x.id !in ids
    ensures DeleteIds(st, ids) == st
  {
    FilterKeepsAll(st.rows, (x: Expense) => x.id !in ids);
  }

  datatype DeleteError = NoSelection

  /** The ids of a selection, as a set. */
  function Elems(s: seq<int>): set<int> {
    set i | i in s
  }

  lemma ElemsSnoc(s: seq<int>, k: nat)
    requires k < |s|
    ensures Elems(s[..k + 1]) == Elems(s[..k]) + {s[k]}
  {
    assert s[..k + 1] == s[..k] + [s[k]];
  }

  /**
   * The confirmed deletion: one `DELETE ... WHERE id = ?` per selected id, in
   * selection order, each committed on its own.
   */
  method ConfirmDelete(st: Store, selected: seq<int>) returns (st': Store)
    requires Valid(st)
    ensures Valid(st') && st' == DeleteIds(st, Elems(selected))
  {
    st' := st;
    var k := 0;
    DeleteAbsentIds(st, Elems(selected[..0]));
    while k < |selected|
      invariant 0 <= k <= |selected|
      invariant Valid(st')
      invariant st' == DeleteIds(st, Elems(selected[..k]))
    {
      DeleteIdsTwice(st, Elems(selected[..k]), {selected[k]});
      ElemsSnoc(selected, k);
      st' := DeleteIds(st', {selected[k]});
      k := k + 1;
    }
    assert selected[..k] == selected;
  }

  /**
   * The delete button: an empty selection is refused and changes nothing;
   * otherwise exactly the rows with a selected id disappear and every other
   * row stays, with its id and fields, in its place.
   */
  method DeleteExpense(st: Store, selected: seq<int>) returns (st': Store, outcome: Outcome<DeleteError>)
    requires Valid(st)
    ensures outcome == Fail(NoSelection) <==> |selected| == 0
    ensures outcome.Fail? ==> st' == st
    ensures Valid(st') && st'.nextId == st.nextId
    ensures forall x | x in st'.rows :: x in st.rows && x.id !in selected
    ensures forall x | x in st.rows && x.id !in selected :: x in st'.rows
    ensures IsSubseq(st'.rows, st.rows)
  {
    if |selected| == 0 {
      st', outcome := st, Fail(NoSelection);
      assert forall x | x in st.rows :: x.id !in selected;
      assert IsSubseq(st.rows, st.rows) by {
        SubseqReflexive(st.rows);
      }
    } else {
      st' := ConfirmDelete(st, selected);
      outcome := Pass;
    }
  }

  lemma {:induction false} SubseqReflexive(s: seq<Expense>)
    ensures IsSubseq(s, s)
    decreases |s|
  {
    if |s| > 0 {
      SubseqReflexive(s[1..]);
    }
  }

  /** A change to the table: an insertion of an entry or a deletion of a set of ids. */
  datatype Op = Add(entry: Entry) | Remove(ids: set<int>)

  /**
   * Applies `ops` in order (an insertion that fails leaves the table as it
   * was) and returns the final table and the ids the insertions assigned.
   * Those ids strictly increase, and each exceeds every id the table held
   * before: no id is ever handed out twice, deletions notwithstanding.
   */
  function Replay(st: Store, ops: seq<Op>): (r: (Store, seq<int>))
    requires Valid(st)
    ensures Valid(r.0) && st.nextId <= r.0.nextId
    ensures forall i | 0 <= i < |r.1| :: st.nextId <= r.1[i] < r.0.nextId
    ensures forall i, j | 0 <= i < j < |r.1| :: r.1[i] < r.1[j]
    ensures forall i, x | 0 <= i < |r.1| && x in st.rows :: x.id < r.1[i]
    decreases |ops|
  {
    if |ops| == 0 then (st, [])
    else
      match ops[0]
      case Add(e) =>
        (match Insert(st, e)
         case Failure(_) => Replay(st, ops[1..])
         case Success((st1, id)) =>
           var (fin, ids) := Replay(st1, ops[1..]);
           (fin, [id] + ids))
      case Remove(ids) => Replay(DeleteIds(st, ids), ops[1..])
  }
}
