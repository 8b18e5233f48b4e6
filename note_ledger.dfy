/**
 * The note records of notes_manager.py and the pure computations over the loaded
 * collection: id assignment, search, lookup, partial edit, deletion and the text and
 * tabular export layouts. The stateful manager in NotesManager applies these to the
 * stored collection.
 */
module NoteLedger {
  import opened Wrappers
  import opened Text

  /**
   * A note as it sits in the JSON array. Every key may be absent from a hand-edited
   * file, so every field is optional; `add_note` always fills all five.
   */
  datatype Note = Note(
    id: Option<int>,
    title: Option<string>,
    content: Option<string>,
    created: Option<string>,
    modified: Option<string>)

  // ----- id assignment (notes_manager.py:12) -----------------------------

  /** The id a note contributes to the maximum: `n.get("id", 0)`. */
  function IdOrZero(n: Note): int {
    n.id.GetOr(0)
  }

  /** The largest `IdOrZero` in a non-empty collection. */
  function MaxId(notes: seq<Note>): (m: int)
    requires notes != []
    ensures forall i :: 0 <= i < |notes| ==> IdOrZero(notes[i]) <= m
    ensures exists i :: 0 <= i < |notes| && IdOrZero(notes[i]) == m
  {
    if |notes| == 1 then IdOrZero(notes[0])
    else
      var rest := MaxId(notes[1..]);
      assert forall i :: 1 <= i < |notes| ==> notes[i] == notes[1..][i - 1];
      if IdOrZero(notes[0]) >= rest then IdOrZero(notes[0]) else rest
  }

  /**
   * `max((n.get("id", 0) for n in notes), default=0) + 1`: one more than the largest
   * id, a missing id counting as 0, and 1 for an empty collection.
   */
  function NextId(notes: seq<Note>): (r: int)
    ensures notes == [] ==> r == 1
    ensures forall i :: 0 <= i < |notes| ==> IdOrZero(notes[i]) < r
    ensures notes != [] ==> exists i :: 0 <= i < |notes| && IdOrZero(notes[i]) == r - 1
  {
    (if notes == [] then 0 else MaxId(notes)) + 1
  }

  /** The issued id is held by no note already stored, so ids stay unique. */
  lemma NextIdIsFresh(notes: seq<Note>)
    ensures forall n :: n in notes ==> n.id != Some(NextId(notes))
  {
    forall n | n in notes ensures n.id != Some(NextId(notes)) {
      var i :| 0 <= i < |notes| && notes[i] == n;
    }
  }

  /** The record `add_note` builds: all five fields, both stamps the same instant. */
  function NewNote(id: int, title: string, content: string, now: string): (n: Note)
    ensures HasAllFields(n) && n.id == Some(id)
    ensures n.title == Some(title) && n.content == Some(content)
    ensures n.created == Some(now) && n.modified == Some(now)
  {
    Note(Some(id), Some(title), Some(content), Some(now), Some(now))
  }

  /** A ledger filled only by `add_note` from empty holds ids 1..n in order, and issues n + 1 next. */
  lemma {:induction false} ConsecutiveIds(notes: seq<Note>)
    requires forall i :: 0 <= i < |notes| ==> notes[i].id == Some(i + 1)
    ensures NextId(notes) == |notes| + 1
  {
    if notes != [] {
      var r := NextId(notes);
      var i :| 0 <= i < |notes| && IdOrZero(notes[i]) == r - 1;
      assert IdOrZero(notes[|notes| - 1]) == |notes|;
    }
  }

  // ----- search (notes_manager.py:18-20) ---------------------------------

  /** `q.lower()` occurs in the lower-cased title or content; a missing field reads as "". */
  predicate Matches(n: Note, q: string) {
    Contains(LowerStr(n.title.GetOr("")), LowerStr(q))
    || Contains(LowerStr(n.content.GetOr("")), LowerStr(q))
  }

  /** The comprehension in `find`: the matching notes, in stored order. */
  function Matching(notes: seq<Note>, q: string): (r: seq<Note>)
    ensures forall n :: n in r <==> n in notes && Matches(n, q)
    ensures |r| <= |notes|
  {
    if notes == [] then []
    else (if Matches(notes[0], q) then [notes[0]] else []) + Matching(notes[1..], q)
  }

  /** `s` is `t` with some elements dropped, the rest kept in order. */
  predicate Subsequence<T(==)>(s: seq<T>, t: seq<T>)
    decreases |t|
  {
    s == [] || (t != [] && ((s[0] == t[0] && Subsequence(s[1..], t[1..])) || Subsequence(s, t[1..])))
  }

  /** The matches are the stored notes with the others dropped, in stored order. */
  lemma {:induction false} MatchingKeepsOrder(notes: seq<Note>, q: string)
    ensures Subsequence(Matching(notes, q), notes)
  {
    if notes != [] {
      MatchingKeepsOrder(notes[1..], q);
      if Matches(notes[0], q) {
        assert Matching(notes, q)[1..] == Matching(notes[1..], q);
      } else {
        assert Matching(notes, q) == Matching(notes[1..], q);
      }
    }
  }

  /** Search keeps stored order: the matches of a + b are those of a followed by those of b. */
  lemma {:induction false} MatchingConcat(a: seq<Note>, b: seq<Note>, q: string)
    ensures Matching(a + b, q) == Matching(a, q) + Matching(b, q)
  {
    if a != [] {
      assert (a + b)[1..] == a[1..] + b;
      MatchingConcat(a[1..], b, q);
    } else {
      assert a + b == b;
    }
  }

  /** An empty query is contained in every string, so it returns every note. */
  lemma {:induction false} EmptyQueryMatchesAll(notes: seq<Note>)
    ensures Matching(notes, "") == notes
  {
    if notes != [] {
      EmptyQueryMatchesAll(notes[1..]);
      assert LowerStr("") == "";
      assert Matches(notes[0], "");
    }
  }

  /** Case in the query does not matter: a query and its lower-cased form match the same notes. */
  lemma QueryCaseIgnored(n: Note, q: string)
    ensures Matches(n, q) <==> Matches(n, LowerStr(q))
  {
    LowerStrIdempotent(q);
  }

  // ----- lookup (notes_manager.py:22-26) ---------------------------------

  /** Index of the first note whose id equals nid; a note without an id never matches. */
  function FirstWithId(notes: seq<Note>, nid: int): (r: Option<nat>)
    ensures r.Some? ==> r.value < |notes| && notes[r.value].id == Some(nid)
    ensures r.Some? ==> forall j :: 0 <= j < r.value ==> notes[j].id != Some(nid)
    ensures r.None? <==> forall j :: 0 <= j < |notes| ==> notes[j].id != Some(nid)
  {
    if notes == [] then None
    else if notes[0].id == Some(nid) then Some(0)
    else
      match FirstWithId(notes[1..], nid)
      case None => None
      case Some(k) => Some(k + 1)
  }

  // ----- partial edit (notes_manager.py:28-42) ---------------------------

  /** One note after `edit`: fields passed as non-None replace, `modified` is always refreshed. */
  function Revised(n: Note, title: Option<string>, content: Option<string>, now: string): (r: Note)
    ensures r.id == n.id && r.created == n.created && r.modified == Some(now)
    ensures title.Some? ==> r.title == title
    ensures title.None? ==> r.title == n.title
    ensures content.Some? ==> r.content == content
    ensures content.None? ==> r.content == n.content
  {
    n.(title := if title.Some? then title else n.title,
       content := if content.Some? then content else n.content,
       modified := Some(now))
  }

  /** The collection after `edit`: only the first note carrying nid is revised. */
  function Edited(notes: seq<Note>, nid: int, title: Option<string>, content: Option<string>, now: string): (r: seq<Note>)
    ensures |r| == |notes|
    ensures (forall n :: n in notes ==> n.id != Some(nid)) ==> r == notes
  {
    match FirstWithId(notes, nid)
    case None => notes
    case Some(i) => notes[i := Revised(notes[i], title, content, now)]
  }

  /**
   * What `edit` promises: same length; only the first note with that id changes; its id,
   * created stamp and every field not passed stay; the passed fields and `modified` are set.
   */
  lemma EditedChangesOnlyFirstMatch(notes: seq<Note>, nid: int, title: Option<string>, content: Option<string>, now: string)
    requires FirstWithId(notes, nid).Some?
    ensures var r := Edited(notes, nid, title, content, now);
      var i := FirstWithId(notes, nid).value;
      && |r| == |notes|
      && (forall j :: 0 <= j < |notes| && j != i ==> r[j] == notes[j])
      && r[i].id == notes[i].id && r[i].created == notes[i].created
      && r[i].title == (if title.Some? then title else notes[i].title)
      && r[i].content == (if content.Some? then content else notes[i].content)
      && r[i].modified == Some(now)
  {
  }

  // ----- deletion (notes_manager.py:44-50) -------------------------------

  /** `[n for n in notes if n.get("id") != nid]`. */
  function Without(notes: seq<Note>, nid: int): (r: seq<Note>)
    ensures forall n :: n in r <==> n in notes && n.id != Some(nid)
    ensures |r| <= |notes|
    ensures |r| == |notes| <==> forall n :: n in notes ==> n.id != Some(nid)
  {
    if notes == [] then []
    else if notes[0].id == Some(nid) then Without(notes[1..], nid)
    else
      assert forall n :: n in notes[1..] ==> n in notes;
      [notes[0]] + Without(notes[1..], nid)
  }

  /** Deletion keeps the survivors in stored order. */
  lemma {:induction false} WithoutConcat(a: seq<Note>, b: seq<Note>, nid: int)
    ensures Without(a + b, nid) == Without(a, nid) + Without(b, nid)
  {
    if a != [] {
      assert (a + b)[1..] == a[1..] + b;
      WithoutConcat(a[1..], b, nid);
    } else {
      assert a + b == b;
    }
  }

  /** A second delete of the same id finds nothing, so it shrinks nothing and writes nothing. */
  lemma DeleteTwiceIsNoop(notes: seq<Note>, nid: int)
    ensures |Without(Without(notes, nid), nid)| == |Without(notes, nid)|
  {
  }

  /** Deleting an id no note holds leaves the collection exactly as it was. */
  lemma {:induction false} WithoutAbsent(notes: seq<Note>, nid: int)
    requires forall n :: n in notes ==> n.id != Some(nid)
    ensures Without(notes, nid) == notes
  {
    if notes != [] {
      assert forall n :: n in notes[1..] ==> n in notes;
      WithoutAbsent(notes[1..], nid);
    }
  }

  /**
   * Ids are not reserved: deleting the note `add_note` just created restores the previous
   * collection, so the next `add_note` issues the same id again.
   */
  lemma DeletingNewestReissuesItsId(notes: seq<Note>, title: string, content: string, now: string)
    ensures var id := NextId(notes);
      var after := Without(notes + [NewNote(id, title, content, now)], id);
      after == notes && NextId(after) == id
  {
    var id := NextId(notes);
    NextIdIsFresh(notes);
    WithoutConcat(notes, [NewNote(id, title, content, now)], id);
    WithoutAbsent(notes, id);
  }

  /**
   * Deleting any id other than the current maximum leaves the next id unchanged
   * (add three notes, delete the second, and the fourth still gets id 4).
   */
  lemma DeleteBelowMaxKeepsNextId(notes: seq<Note>, nid: int)
    requires exists i :: 0 <= i < |notes| && notes[i].id == Some(NextId(notes) - 1)
    requires nid != NextId(notes) - 1
    ensures NextId(Without(notes, nid)) == NextId(notes)
  {
    var m := NextId(notes) - 1;
    var i :| 0 <= i < |notes| && notes[i].id == Some(m);
    var top := notes[i];
    var r := Without(notes, nid);
    assert top in r;
    NextIdAbove(r, top);
    var w := NextIdAttained(r);
    NextIdAbove(notes, w);
  }

  /** Every stored note's id (0 when missing) lies below the next id. */
  lemma NextIdAbove(notes: seq<Note>, n: Note)
    requires n in notes
    ensures IdOrZero(n) < NextId(notes)
  {
    var i :| 0 <= i < |notes| && notes[i] == n;
  }

  /** Some stored note holds the id just below the next one. */
  lemma NextIdAttained(notes: seq<Note>) returns (w: Note)
    requires notes != []
    ensures w in notes && IdOrZero(w) == NextId(notes) - 1
  {
    var i :| 0 <= i < |notes| && IdOrZero(notes[i]) == NextId(notes) - 1;
    w := notes[i];
  }


  // ----- export (notes_manager.py:52-71) ---------------------------------

  /** What an export loop wrote, and whether it finished without a KeyError. */
  datatype Written<T> = Written(out: T, complete: bool)

  /** The keys the "txt" header line reads. */
  predicate HasHeaderFields(n: Note) {
    n.id.Some? && n.title.Some? && n.created.Some?
  }

  /** Every key `export` reads. */
  predicate HasAllFields(n: Note) {
    HasHeaderFields(n) && n.content.Some? && n.modified.Some?
  }

  /** "ID: {id} | {title} | Created: {created}\n" */
  function HeaderLine(n: Note): string
    requires HasHeaderFields(n)
  {
    "ID: " + IntStr(n.id.value) + " | " + n.title.value + " | Created: " + n.created.value + "\n"
  }

  /** The "txt" block of one note: the header line, the content, a blank line. */
  function Block(n: Note): string
    requires HasHeaderFields(n) && n.content.Some?
  {
    HeaderLine(n) + n.content.value + "\n\n"
  }

  /** The two writes of one note, header line then content, append its block. */
  lemma BlockAppend(out: string, n: Note)
    requires HasHeaderFields(n) && n.content.Some?
    ensures (out + HeaderLine(n)) + (n.content.value + "\n\n") == out + Block(n)
  {
  }

  /**
   * What the "txt" loop has written after the given notes: it stops at the first note
   * lacking a key, after the header line if only the content is missing.
   */
  function TxtWritten(notes: seq<Note>): (w: Written<string>)
    ensures w.complete <==> forall n :: n in notes ==> HasHeaderFields(n) && n.content.Some?
  {
    if notes == [] then Written("", true)
    else
      var prev := TxtWritten(notes[..|notes| - 1]);
      var n := notes[|notes| - 1];
      if !prev.complete then prev
      else if !HasHeaderFields(n) then Written(prev.out, false)
      else if n.content.None? then Written(prev.out + HeaderLine(n), false)
      else Written(prev.out + Block(n), true)
  }

  /** One more note of the "txt" loop, as TxtWritten unfolds it on a prefix. */
  lemma TxtWrittenStep(notes: seq<Note>, i: nat)
    requires i < |notes| && TxtWritten(notes[..i]).complete
    ensures !HasHeaderFields(notes[i]) ==> TxtWritten(notes[..i + 1]) == Written(TxtWritten(notes[..i]).out, false)
    ensures HasHeaderFields(notes[i]) && notes[i].content.None? ==>
      TxtWritten(notes[..i + 1]) == Written(TxtWritten(notes[..i]).out + HeaderLine(notes[i]), false)
    ensures HasHeaderFields(notes[i]) && notes[i].content.Some? ==>
      TxtWritten(notes[..i + 1]) == Written(TxtWritten(notes[..i]).out + Block(notes[i]), true)
  {
    assert notes[..i + 1][..i] == notes[..i];
  }

  /** The intended "txt" layout, note after note. */
  function Blocks(notes: seq<Note>): string
    requires forall n :: n in notes ==> HasHeaderFields(n) && n.content.Some?
  {
    if notes == [] then "" else Block(notes[0]) + Blocks(notes[1..])
  }

  /** String concatenation is associative. */
  lemma ConcatAssoc(a: string, b: string, c: string)
    ensures a + (b + c) == (a + b) + c
  {
  }

  lemma {:induction false} BlocksSnoc(notes: seq<Note>, n: Note)
    requires forall m :: m in notes ==> HasHeaderFields(m) && m.content.Some?
    requires HasHeaderFields(n) && n.content.Some?
    ensures Blocks(notes + [n]) == Blocks(notes) + Block(n)
  {
    if notes != [] {
      var rest := notes[1..];
      assert forall m :: m in rest ==> m in notes;
      assert (notes + [n])[0] == notes[0] && (notes + [n])[1..] == rest + [n];
      BlocksSnoc(rest, n);
      var first := Block(notes[0]);
      assert Blocks(notes + [n]) == first + Blocks(rest + [n]);
      assert Blocks(notes) == first + Blocks(rest);
      ConcatAssoc(first, Blocks(rest), Block(n));
    } else {
      assert [n][1..] == [];
    }
  }

  /**
   * "txt" export layout: the loop completes exactly when every note has the four keys it
   * reads, and then the file is one block per note in stored order.
   */
  lemma {:induction false} TxtLayout(notes: seq<Note>)
    ensures TxtWritten(notes).complete <==> forall n :: n in notes ==> HasHeaderFields(n) && n.content.Some?
    ensures TxtWritten(notes).complete ==> TxtWritten(notes).out == Blocks(notes)
  {
    if notes != [] {
      var init := notes[..|notes| - 1];
      var last := notes[|notes| - 1];
      TxtLayout(init);
      assert notes == init + [last];
      assert forall n :: n in init ==> n in notes;
      if TxtWritten(init).complete && HasHeaderFields(last) && last.content.Some? {
        BlocksSnoc(init, last);
      }
    }
  }

  /** Once the "txt" loop stopped, later notes change nothing. */
  lemma {:induction false} TxtStuck(notes: seq<Note>, i: nat)
    requires i <= |notes| && !TxtWritten(notes[..i]).complete
    ensures TxtWritten(notes) == TxtWritten(notes[..i])
    decreases |notes| - i
  {
    if i < |notes| {
      assert notes[..i + 1][..i] == notes[..i];
      TxtStuck(notes, i + 1);
    } else {
      assert notes[..i] == notes;
    }
  }

  /** `w.writerow(["id", "title", "content", "created", "modified"])` */
  const CsvHeader: seq<string> := ["id", "title", "content", "created", "modified"]

  /** The row `writerow` gets for one note; the id is written as `str(id)`. */
  function CsvRow(n: Note): (row: seq<string>)
    requires HasAllFields(n)
    ensures |row| == |CsvHeader|
  {
    [IntStr(n.id.value), n.title.value, n.content.value, n.created.value, n.modified.value]
  }

  /** Rows the "csv" loop has written after the given notes: the header first, stopping at a missing key. */
  function CsvWritten(notes: seq<Note>): (w: Written<seq<seq<string>>>)
    ensures w.complete <==> forall n :: n in notes ==> HasAllFields(n)
  {
    if notes == [] then Written([CsvHeader], true)
    else
      var prev := CsvWritten(notes[..|notes| - 1]);
      var n := notes[|notes| - 1];
      if !prev.complete then prev
      else if !HasAllFields(n) then Written(prev.out, false)
      else Written(prev.out + [CsvRow(n)], true)
  }

  /** One more note of the "csv" loop, as CsvWritten unfolds it on a prefix. */
  lemma CsvWrittenStep(notes: seq<Note>, i: nat)
    requires i < |notes| && CsvWritten(notes[..i]).complete
    ensures !HasAllFields(notes[i]) ==> CsvWritten(notes[..i + 1]) == Written(CsvWritten(notes[..i]).out, false)
    ensures HasAllFields(notes[i]) ==> CsvWritten(notes[..i + 1]) == Written(CsvWritten(notes[..i]).out + [CsvRow(notes[i])], true)
  {
    assert notes[..i + 1][..i] == notes[..i];
  }

  /**
   * "csv" export layout: the header row, then exactly one row per note in stored order;
   * the loop completes exactly when every note has all five keys.
   */
  lemma {:induction false} CsvLayout(notes: seq<Note>)
    ensures CsvWritten(notes).complete <==> forall n :: n in notes ==> HasAllFields(n)
    ensures |CsvWritten(notes).out| >= 1 && CsvWritten(notes).out[0] == CsvHeader
    ensures CsvWritten(notes).complete ==>
      |CsvWritten(notes).out| == |notes| + 1
      && forall i :: 0 <= i < |notes| ==> CsvWritten(notes).out[i + 1] == CsvRow(notes[i])
  {
    if notes != [] {
      var init := notes[..|notes| - 1];
      CsvLayout(init);
      assert notes == init + [notes[|notes| - 1]];
      assert forall n :: n in init ==> n in notes;
    }
  }

  /** Once the "csv" loop stopped, later notes change nothing. */
  lemma {:induction false} CsvStuck(notes: seq<Note>, i: nat)
    requires i <= |notes| && !CsvWritten(notes[..i]).complete
    ensures CsvWritten(notes) == CsvWritten(notes[..i])
    decreases |notes| - i
  {
    if i < |notes| {
      assert notes[..i + 1][..i] == notes[..i];
      CsvStuck(notes, i + 1);
    } else {
      assert notes[..i] == notes;
    }
  }
}
