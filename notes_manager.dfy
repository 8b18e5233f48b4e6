/**
 * `NotesManager` of notes_manager.py: every operation reads the whole notes file, works on
 * the loaded list and, when it mutates, rewrites the whole file. The notes file is a field
 * holding what `read_json` would find; files written by `export` are a second field.
 */
module NotesManager {
  import opened Wrappers
  import opened Text
  import opened Persist
  import opened NoteLedger

  /** What `export` leaves at its target path. */
  datatype ExportFile =
    | TextFile(text: string)              // "txt": the text written
    | CsvFile(rows: seq<seq<string>>)     // "csv": the rows handed to csv.writer
    | JsonFile(notes: seq<Note>)          // "json": the collection handed to write_json


  /**
   * The "txt" branch of `export`: for each note the header line, then the content and a
   * blank line, stopping at the first note lacking a key (a KeyError).
   */
  method WriteTxt(notes: seq<Note>) returns (text: string, ok: bool)
    ensures Written(text, ok) == TxtWritten(notes)
  {
    text, ok := "", true;
    var i := 0;
    while i < |notes| && ok
      invariant 0 <= i <= |notes|
      invariant TxtWritten(notes[..i]) == Written(text, ok)
    {
      var n := notes[i];
      TxtWrittenStep(notes, i);
      if !HasHeaderFields(n) {
        ok := false;
      } else {
        if n.content.Some? {
          BlockAppend(text, n);
        }
        text := text + HeaderLine(n);
        if n.content.None? {
          ok := false;
        } else {
          text := text + (n.content.value + "\n\n");
        }
      }
      i := i + 1;
    }
    if ok {
      assert notes[..i] == notes;
    } else {
      TxtStuck(notes, i);
    }
  }

  /**
   * The "csv" branch of `export`: the header row, then one row per note, stopping at the
   * first note lacking a key (a KeyError).
   */
  method WriteCsv(notes: seq<Note>) returns (rows: seq<seq<string>>, ok: bool)
    ensures Written(rows, ok) == CsvWritten(notes)
  {
    rows, ok := [CsvHeader], true;
    var i := 0;
    while i < |notes| && ok
      invariant 0 <= i <= |notes|
      invariant CsvWritten(notes[..i]) == Written(rows, ok)
    {
      var n := notes[i];
      CsvWrittenStep(notes, i);
      if !HasAllFields(n) {
        ok := false;
      } else {
        rows := rows + [CsvRow(n)];
      }
      i := i + 1;
    }
    if ok {
      assert notes[..i] == notes;
    } else {
      CsvStuck(notes, i);
    }
  }

  class NotesManager {
    /** NOTES_FILE as `read_json` sees it. */
    var file: Doc<seq<Note>>
    /** Files written by `export`, by path. */
    var exports: map<string, ExportFile>

    constructor (file: Doc<seq<Note>>)
      ensures this.file == file && exports == map[]
    {
      this.file := file;
      exports := map[];
    }

    /**
     * `list_notes`: the stored collection; the empty list when the file is missing or
     * unreadable (`read_json` falls back to `[]`, and `data or []` keeps an empty list empty).
     */
    function ListNotes(): (notes: seq<Note>)
      reads this
      ensures file.Parsed? ==> notes == file.value
      ensures !file.Parsed? ==> notes == []
    {
      ReadJson(file, [])
    }

    /**
     * `add_note`: the new note gets the next id and `now` for both stamps, is appended
     * after every stored note, and is returned; the whole collection is rewritten.
     */
    method AddNote(title: string, content: string, now: string) returns (note: Note)
      modifies this`file
      ensures note == NewNote(NextId(old(ListNotes())), title, content, now)
      ensures forall n :: n in old(ListNotes()) ==> n.id != note.id
      ensures file == Parsed(old(ListNotes()) + [note])
    {
      var notes := ListNotes();
      var nid := NextId(notes);
      NextIdIsFresh(notes);
      note := NewNote(nid, title, content, now);
      notes := notes + [note];
      file := WriteJson(notes);
    }

    /** `find(query)`: exactly the stored notes that match, in stored order. */
    function Find(query: string): (found: seq<Note>)
      reads this
      ensures forall n :: n in found <==> n in ListNotes() && Matches(n, query)
      ensures |found| <= |ListNotes()| && Subsequence(found, ListNotes())
    {
      MatchingKeepsOrder(ListNotes(), query);
      Matching(ListNotes(), query)
    }

    /** `get(nid)`: the first stored note with that id, or None when no note has it. */
    function Get(nid: int): (r: Option<Note>)
      reads this
      ensures r.None? <==> forall n :: n in ListNotes() ==> n.id != Some(nid)
      ensures r.Some? ==> r.value in ListNotes() && r.value.id == Some(nid)
      ensures r.Some? ==> exists i :: 0 <= i < |ListNotes()| && ListNotes()[i] == r.value
                                    && (forall j :: 0 <= j < i ==> ListNotes()[j].id != Some(nid))
    {
      var notes := ListNotes();
      match FirstWithId(notes, nid)
      case None => None
      case Some(i) => Some(notes[i])
    }

    /**
     * `edit`: revises the first note with that id (only the fields passed, `modified`
     * always) and rewrites the file; returns whether such a note exists, and writes
     * nothing when none does.
     */
    method Edit(nid: int, title: Option<string>, content: Option<string>, now: string) returns (changed: bool)
      modifies this`file
      ensures changed <==> exists n :: n in old(ListNotes()) && n.id == Some(nid)
      ensures changed ==> file == Parsed(Edited(old(ListNotes()), nid, title, content, now))
      ensures !changed ==> file == old(file)
    {
      var notes := ListNotes();
      changed := false;
      var i := 0;
      while i < |notes|
        invariant 0 <= i <= |notes|
        invariant !changed && notes == old(ListNotes())
        invariant forall j :: 0 <= j < i ==> notes[j].id != Some(nid)
      {
        if notes[i].id == Some(nid) {
          assert FirstWithId(notes, nid) == Some(i);
          notes := notes[i := Revised(notes[i], title, content, now)];
          changed := true;
          break;
        }
        i := i + 1;
      }
      if changed {
        file := WriteJson(notes);
      } else {
        assert FirstWithId(notes, nid).None?;
      }
    }

    /**
     * `delete`: drops every note with that id, keeping the rest in order, and rewrites the
     * file only when that removed something; returns whether it did.
     */
    method Delete(nid: int) returns (deleted: bool)
      modifies this`file
      ensures deleted <==> exists n :: n in old(ListNotes()) && n.id == Some(nid)
      ensures deleted ==> file == Parsed(Without(old(ListNotes()), nid))
      ensures !deleted ==> file == old(file)
    {
      var notes := ListNotes();
      var kept := Without(notes, nid);
      if |kept| != |notes| {
        file := WriteJson(kept);
        return true;
      }
      return false;
    }

    /**
     * `export(path, fmt)`: the format is compared lower-cased. "txt" writes one block per
     * note, "csv" a header row then one row per note, "json" the collection itself; each
     * returns the path, or fails with a KeyError at the first note lacking a key it reads,
     * leaving what was written so far. Any other format fails before writing anything.
     */
    method Export(path: string, fmt: string) returns (r: Result<string>)
      modifies this`exports
      ensures var notes := ListNotes(); var f := LowerStr(fmt);
        if f == "txt" then
          exports == old(exports)[path := TextFile(TxtWritten(notes).out)]
          && r == (if TxtWritten(notes).complete then Ok(path) else Err(MissingField))
        else if f == "csv" then
          exports == old(exports)[path := CsvFile(CsvWritten(notes).out)]
          && r == (if CsvWritten(notes).complete then Ok(path) else Err(MissingField))
        else if f == "json" then
          exports == old(exports)[path := JsonFile(notes)] && r == Ok(path)
        else
          exports == old(exports) && r == Err(UnsupportedFormat)
    {
      var f := LowerStr(fmt);
      var notes := ListNotes();
      if f == "txt" {
        var text, ok := WriteTxt(notes);
        exports := exports[path := TextFile(text)];
        r := if ok then Ok(path) else Err(MissingField);
      } else if f == "csv" {
        var rows, ok := WriteCsv(notes);
        exports := exports[path := CsvFile(rows)];
        r := if ok then Ok(path) else Err(MissingField);
      } else if f == "json" {
        exports := exports[path := JsonFile(notes)];
        r := Ok(path);
      } else {
        r := Err(UnsupportedFormat);
      }
    }
  }
}
