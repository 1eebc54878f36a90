/** The two persistence stores: a table of uploaded-file records with a
    filename uniqueness check on insert, and an append-only chat log numbered
    per namespace. Each table is the sequence of its rows in storage order. */
module Database {
  import opened Common

  // ---------------------------------------------------------------------------
  // File records
  // ---------------------------------------------------------------------------

  /** One stored file; the same fields serve as the table row and the record
      handed to callers, since converting between the two copies them. */
  datatype FileRecord = FileRecord(
    filename: string,
    filetype: Option<string>,
    description: Option<string>,
    vectorIds: seq<string>,
    fileContent: Option<string>,
    fileBytes: Option<seq<byte>>)

  const FileExists := ValueError("File already exists")
  const InvalidFile := ValueError("Invalid collection/file")
  const NoBytes := TypeError("cannot convert 'NoneType' object to bytes")
  const EmptyUpdate := OperationalError("near \"WHERE\": syntax error")

  /** Converting a row for the caller copies every field and converts the
      stored bytes, which raises when the row has none. */
  function FileToModel(row: FileRecord): (r: Result<FileRecord>)
    ensures r.Success? <==> row.fileBytes.Some?
    ensures r.Success? ==> r.value == row
    ensures r.Failure? ==> r.error == NoBytes
  {
    if row.fileBytes.None? then Failure(NoBytes) else Success(row)
  }

  ghost predicate HasFile(rows: seq<FileRecord>, filename: string)
  {
    exists i :: 0 <= i < |rows| && rows[i].filename == filename
  }

  /** At most one row per filename. */
  ghost predicate UniqueFilenames(rows: seq<FileRecord>)
  {
    forall i, j :: 0 <= i < j < |rows| ==> rows[i].filename != rows[j].filename
  }

  /** Position of the first row with the given filename. */
  function FirstMatch(rows: seq<FileRecord>, filename: string): (r: Option<nat>)
    ensures r.None? <==> !HasFile(rows, filename)
    ensures r.Some? ==> r.value < |rows| && rows[r.value].filename == filename
    ensures r.Some? ==> forall j :: 0 <= j < r.value ==> rows[j].filename != filename
  {
    if rows == [] then None
    else if rows[0].filename == filename then Some(0)
    else
      match FirstMatch(rows[1..], filename)
      case None =>
        assert forall i :: 1 <= i < |rows| ==> rows[i] == rows[1..][i - 1];
        None
      case Some(i) => Some(i + 1)
  }

  /** Number of rows with the given filename. */
  function CountNamed(rows: seq<FileRecord>, filename: string): (n: nat)
    ensures n <= |rows|
    ensures n == 0 <==> !HasFile(rows, filename)
    decreases |rows|
  {
    if rows == [] then 0
    else
      var init := rows[..|rows| - 1];
      assert forall i :: 0 <= i < |init| ==> init[i] == rows[i];
      CountNamed(init, filename) + if rows[|rows| - 1].filename == filename then 1 else 0
  }

  /** The rows that remain after deleting every row with the given filename,
      in their original order. */
  function Without(rows: seq<FileRecord>, filename: string): (kept: seq<FileRecord>)
    ensures forall r :: r in kept <==> r in rows && r.filename != filename
    ensures |kept| + CountNamed(rows, filename) == |rows|
    decreases |rows|
  {
    if rows == [] then []
    else
      var init := rows[..|rows| - 1];
      var last := rows[|rows| - 1];
      assert rows == init + [last];
      Without(init, filename) + if last.filename == filename then [] else [last]
  }

  /** Converts every row for the caller; the first row without bytes raises. */
  function ToModels(rows: seq<FileRecord>): (r: Result<seq<FileRecord>>)
    ensures r.Success? <==> forall i :: 0 <= i < |rows| ==> rows[i].fileBytes.Some?
    ensures r.Success? ==> r.value == rows
    ensures r.Failure? ==> r.error == NoBytes
  {
    if rows == [] then Success([])
    else
      match FileToModel(rows[0])
      case Failure(e) => Failure(e)
      case Success(m) =>
        match ToModels(rows[1..])
        case Failure(e) =>
          assert forall i :: 1 <= i < |rows| ==> rows[i] == rows[1..][i - 1];
          Failure(e)
        case Success(ms) =>
          assert rows == [rows[0]] + rows[1..];
          Success([m] + ms)
  }

  /** The columns a partial update may set; `None` leaves a column alone.
      `filename` is not among them: a `filename=` keyword binds to the
      positional parameter of `update_file`, so it never reaches the update. */
  datatype FileUpdate = FileUpdate(
    filetype: Option<Option<string>>,
    description: Option<Option<string>>,
    vectorIds: Option<seq<string>>,
    fileContent: Option<Option<string>>,
    fileBytes: Option<Option<seq<byte>>>)

  /** An update with no column to set: the generated `UPDATE ... SET WHERE ...`
      is not valid SQL. */
  predicate SetsNoColumn(changes: FileUpdate)
  {
    changes == FileUpdate(None, None, None, None, None)
  }

  function Apply(row: FileRecord, changes: FileUpdate): FileRecord
  {
    FileRecord(
      row.filename,
      if changes.filetype.Some? then changes.filetype.value else row.filetype,
      if changes.description.Some? then changes.description.value else row.description,
      if changes.vectorIds.Some? then changes.vectorIds.value else row.vectorIds,
      if changes.fileContent.Some? then changes.fileContent.value else row.fileContent,
      if changes.fileBytes.Some? then changes.fileBytes.value else row.fileBytes)
  }

  function Updated(rows: seq<FileRecord>, filename: string, changes: FileUpdate): seq<FileRecord>
  {
    seq(|rows|, i requires 0 <= i < |rows| =>
      if rows[i].filename == filename then Apply(rows[i], changes) else rows[i])
  }

  /** Appending a record with a new filename keeps filenames unique. */
  lemma AddKeepsUnique(rows: seq<FileRecord>, row: FileRecord)
    requires UniqueFilenames(rows) && !HasFile(rows, row.filename)
    ensures UniqueFilenames(rows + [row])
  {
    var all := rows + [row];
    forall i, j | 0 <= i < j < |all| ensures all[i].filename != all[j].filename {
      if j == |rows| {
        assert rows[i].filename != row.filename;
      }
    }
  }

  /** Bulk insertion does no check: adding a row whose filename is already
      present always breaks uniqueness. */
  lemma InsertExistingBreaksUnique(rows: seq<FileRecord>, extra: seq<FileRecord>, filename: string)
    requires HasFile(rows, filename) && HasFile(extra, filename)
    ensures !UniqueFilenames(rows + extra)
  {
    var i :| 0 <= i < |rows| && rows[i].filename == filename;
    var j :| 0 <= j < |extra| && extra[j].filename == filename;
    assert (rows + extra)[i].filename == (rows + extra)[|rows| + j].filename;
  }

  /** With unique filenames a name matches at most one row, so deleting by
      name removes at most one. */
  lemma {:induction false} UniqueCountAtMostOne(rows: seq<FileRecord>, filename: string)
    requires UniqueFilenames(rows)
    ensures CountNamed(rows, filename) <= 1
  {
    if rows != [] {
      var init := rows[..|rows| - 1];
      assert UniqueFilenames(init);
      UniqueCountAtMostOne(init, filename);
    }
  }

  /** Under unique filenames the first match is the only match. */
  lemma FirstMatchIsTheMatch(rows: seq<FileRecord>, filename: string, i: nat)
    requires UniqueFilenames(rows) && i < |rows| && rows[i].filename == filename
    ensures FirstMatch(rows, filename) == Some(i)
  {
  }

  /** A record added under a new filename is the one later found by that name. */
  lemma AddThenFind(rows: seq<FileRecord>, row: FileRecord)
    requires !HasFile(rows, row.filename)
    ensures FirstMatch(rows + [row], row.filename) == Some(|rows|)
  {
    var all := rows + [row];
    assert all[|rows|].filename == row.filename;
  }

  /** After deleting by name nothing of that name is left. */
  lemma DeleteThenFind(rows: seq<FileRecord>, filename: string)
    ensures FirstMatch(Without(rows, filename), filename) == None
  {
  }

  /** An update never renames a row, so it keeps filenames unique. */
  lemma UpdateKeepsUnique(rows: seq<FileRecord>, filename: string, changes: FileUpdate)
    requires UniqueFilenames(rows)
    ensures UniqueFilenames(Updated(rows, filename, changes))
  {
    var u := Updated(rows, filename, changes);
    assert forall i :: 0 <= i < |rows| ==> u[i].filename == rows[i].filename;
  }

  /** The table of uploaded files. */
  class FileDBManager {
    var rows: seq<FileRecord>

    /** Opens the table with whatever rows it already holds. */
    constructor (stored: seq<FileRecord>)
      ensures rows == stored
    {
      rows := stored;
    }

    /** Rejects a filename that is already present, leaving the table as it
        was; otherwise inserts the record and returns it converted back, which
        raises after the insert when the record has no bytes. */
    method AddFile(fileModel: FileRecord) returns (r: Result<FileRecord>)
      modifies this
      ensures HasFile(old(rows), fileModel.filename) ==> r == Failure(FileExists) && rows == old(rows)
      ensures !HasFile(old(rows), fileModel.filename) ==> rows == old(rows) + [fileModel]
      ensures !HasFile(old(rows), fileModel.filename) ==>
                r == if fileModel.fileBytes.Some? then Success(fileModel) else Failure(NoBytes)
      ensures UniqueFilenames(old(rows)) ==> UniqueFilenames(rows)
    {
      var existingFile := FirstMatch(rows, fileModel.filename);
      if existingFile.Some? {
        return Failure(FileExists);
      }
      if UniqueFilenames(rows) {
        AddKeepsUnique(rows, fileModel);
      }
      rows := rows + [fileModel];
      r := FileToModel(fileModel);
    }

    /** The first record with the given name, or `None` when there is none. */
    method GetFileByName(filename: string) returns (r: Result<Option<FileRecord>>)
      ensures !HasFile(rows, filename) ==> r == Success(None)
      ensures forall i :: (0 <= i < |rows| && rows[i].filename == filename &&
                           forall j :: 0 <= j < i ==> rows[j].filename != filename) ==>
                r == if rows[i].fileBytes.Some? then Success(Some(rows[i])) else Failure(NoBytes)
    {
      var found := FirstMatch(rows, filename);
      if found.None? {
        return Success(None);
      }
      var file := FileToModel(rows[found.value]);
      if file.Failure? {
        return Failure(file.error);
      }
      r := Success(Some(file.value));
    }

    /** Rejects a name with no record (or passes on the failed read), and
        otherwise deletes every row with that name and returns how many. */
    method DeleteFile(filename: string) returns (r: Result<int>)
      modifies this
      ensures !HasFile(old(rows), filename) ==> r == Failure(InvalidFile) && rows == old(rows)
      ensures HasFile(old(rows), filename) ==>
                var first := old(rows)[FirstMatch(old(rows), filename).value];
                if first.fileBytes.None? then r == Failure(NoBytes) && rows == old(rows)
                else rows == Without(old(rows), filename) && r == Success(CountNamed(old(rows), filename))
      ensures UniqueFilenames(old(rows)) ==> UniqueFilenames(rows)
    {
      var file := GetFileByName(filename);
      if file.Failure? {
        return Failure(file.error);
      }
      if file.value.None? {
        return Failure(InvalidFile);
      }
      r := Success(CountNamed(rows, filename));
      rows := Without(rows, filename);
      WithoutKeepsUnique(old(rows), filename);
    }

    /** Deletes every row and returns how many there were. */
    method DeleteAll() returns (n: int)
      modifies this
      ensures n == |old(rows)| && rows == []
    {
      n := |rows|;
      rows := [];
    }

    /** Every record, in table order; fails if any row has no bytes. */
    method GetAll() returns (r: Result<seq<FileRecord>>)
      ensures (forall i :: 0 <= i < |rows| ==> rows[i].fileBytes.Some?) ==> r == Success(rows)
      ensures (exists i :: 0 <= i < |rows| && rows[i].fileBytes.None?) ==> r == Failure(NoBytes)
    {
      r := ToModels(rows);
    }

    /** Appends all given records in order, without any duplicate check. */
    method InsertMany(newRows: seq<FileRecord>)
      modifies this
      ensures rows == old(rows) + newRows
    {
      rows := rows + newRows;
    }

    /** Applies the changes to every row with the given name, returns the
        number of such rows and leaves the other rows alone. An update that
        sets no column is refused by the database and changes nothing. */
    method UpdateFile(filename: string, changes: FileUpdate) returns (r: Result<int>)
      modifies this
      ensures SetsNoColumn(changes) ==> r == Failure(EmptyUpdate) && rows == old(rows)
      ensures !SetsNoColumn(changes) ==> r == Success(CountNamed(old(rows), filename))
      ensures |rows| == |old(rows)|
      ensures !SetsNoColumn(changes) ==>
                forall i :: 0 <= i < |rows| && old(rows)[i].filename == filename ==> rows[i] == Apply(old(rows)[i], changes)
      ensures forall i :: 0 <= i < |rows| && old(rows)[i].filename != filename ==> rows[i] == old(rows)[i]
      ensures UniqueFilenames(old(rows)) ==> UniqueFilenames(rows)
    {
      if SetsNoColumn(changes) {
        return Failure(EmptyUpdate);
      }
      r := Success(CountNamed(rows, filename));
      if UniqueFilenames(rows) {
        UpdateKeepsUnique(rows, filename, changes);
      }
      rows := Updated(rows, filename, changes);
    }
  }

  /** Deleting rows keeps filenames unique. */
  lemma {:induction false} WithoutKeepsUnique(rows: seq<FileRecord>, filename: string)
    ensures UniqueFilenames(rows) ==> UniqueFilenames(Without(rows, filename))
  {
    if rows != [] && UniqueFilenames(rows) {
      var init := rows[..|rows| - 1];
      var last := rows[|rows| - 1];
      assert UniqueFilenames(init);
      WithoutKeepsUnique(init, filename);
      var kept := Without(init, filename);
      if last.filename != filename {
        var all := kept + [last];
        forall i, j | 0 <= i < j < |all| ensures all[i].filename != all[j].filename {
          if j == |kept| {
            assert kept[i] in init;
            var k :| 0 <= k < |init| && init[k] == kept[i];
            assert rows[k].filename != rows[|rows| - 1].filename;
          }
        }
      }
    }
  }

  /** Without of a log with one more row. */
  lemma WithoutSnoc(rows: seq<FileRecord>, last: FileRecord, filename: string)
    ensures Without(rows + [last], filename) == Without(rows, filename) + (if last.filename == filename then [] else [last])
  {
    var all := rows + [last];
    assert all[..|all| - 1] == rows;
  }

  /** Without keeps every selected row as often as it occurs and drops every
      other row. */
  lemma {:induction false} WithoutCounts(rows: seq<FileRecord>, filename: string)
    ensures forall r :: multiset(Without(rows, filename))[r] == if r.filename != filename then multiset(rows)[r] else 0
  {
    if rows != [] {
      var init := rows[..|rows| - 1];
      var last := rows[|rows| - 1];
      assert rows == init + [last];
      WithoutCounts(init, filename);
      WithoutSnoc(init, last, filename);
    }
  }

  /** Deleting from a concatenation deletes from each part and keeps the
      order of what remains. */
  lemma {:induction false} WithoutDistributes(a: seq<FileRecord>, b: seq<FileRecord>, filename: string)
    ensures Without(a + b, filename) == Without(a, filename) + Without(b, filename)
  {
    if b == [] {
      assert a + b == a;
    } else {
      var init := b[..|b| - 1];
      var last := b[|b| - 1];
      assert b == init + [last];
      assert a + b == (a + init) + [last];
      var tail := if last.filename == filename then [] else [last];
      calc {
        Without(a + b, filename);
        Without((a + init) + [last], filename);
        { WithoutSnoc(a + init, last, filename); }
        Without(a + init, filename) + tail;
        { WithoutDistributes(a, init, filename); }
        (Without(a, filename) + Without(init, filename)) + tail;
        Without(a, filename) + (Without(init, filename) + tail);
        { WithoutSnoc(init, last, filename); }
        Without(a, filename) + Without(b, filename);
      }
    }
  }

  /** The file store's own scenario: clear the table, add a record, read it
      back, delete it, and find neither it nor anything else. */
  method TestFileManager(stored: seq<FileRecord>)
    returns (added: Result<FileRecord>, retrieved: Result<Option<FileRecord>>, deleted: Result<int>,
             afterDeletion: Result<Option<FileRecord>>, remaining: Result<seq<FileRecord>>)
    ensures added.Success? && retrieved.Success? && retrieved.value.Some?
    ensures retrieved.value.value.filename == "Test File"
    ensures deleted == Success(1)
    ensures afterDeletion == Success(None)
    ensures remaining == Success([])
  {
    var fileManager := new FileDBManager(stored);
    var _ := fileManager.DeleteAll();
    var fileBytes: seq<byte> := [83, 111, 109, 101, 32, 98, 121, 116, 101, 115, 32, 102, 111, 114, 32,
                                 116, 101, 115, 116, 105, 110, 103];
    var file := FileRecord("Test File", Some(".txt"), Some("Desctiption"), ["1", "2", "3"],
                           Some("This is a test file content."), Some(fileBytes));
    added := fileManager.AddFile(file);
    assert fileManager.rows == [file];
    retrieved := fileManager.GetFileByName("Test File");
    assert fileManager.rows[0].filename == "Test File";
    deleted := fileManager.DeleteFile(retrieved.value.value.filename);
    afterDeletion := fileManager.GetFileByName(retrieved.value.value.filename);
    remaining := fileManager.GetAll();
  }

  // ---------------------------------------------------------------------------
  // Chat log
  // ---------------------------------------------------------------------------

  /** One stored turn of a conversation. */
  datatype ChatMessage = ChatMessage(aiMessage: string, humanMessage: string, sequenceNumber: int, namespace: string)

  /** The rows of one namespace, in storage order. */
  function InNamespace(rows: seq<ChatMessage>, namespace: string): (r: seq<ChatMessage>)
    ensures forall m :: m in r <==> m in rows && m.namespace == namespace
    decreases |rows|
  {
    if rows == [] then []
    else
      var init := rows[..|rows| - 1];
      var last := rows[|rows| - 1];
      assert rows == init + [last];
      InNamespace(init, namespace) + if last.namespace == namespace then [last] else []
  }

  /** InNamespace of a log with one more row. */
  lemma InNamespaceSnoc(rows: seq<ChatMessage>, last: ChatMessage, namespace: string)
    ensures InNamespace(rows + [last], namespace) == InNamespace(rows, namespace) + (if last.namespace == namespace then [last] else [])
  {
    var all := rows + [last];
    assert all[..|all| - 1] == rows;
  }

  /** InNamespace keeps every selected row as often as it occurs and drops every
      other row. */
  lemma {:induction false} InNamespaceCounts(rows: seq<ChatMessage>, namespace: string)
    ensures forall m :: multiset(InNamespace(rows, namespace))[m] == if m.namespace == namespace then multiset(rows)[m] else 0
  {
    if rows != [] {
      var init := rows[..|rows| - 1];
      var last := rows[|rows| - 1];
      assert rows == init + [last];
      InNamespaceCounts(init, namespace);
      InNamespaceSnoc(init, last, namespace);
    }
  }

  /** Selecting a namespace from a concatenation selects from each part and
      keeps storage order. */
  lemma {:induction false} InNamespaceDistributes(a: seq<ChatMessage>, b: seq<ChatMessage>, namespace: string)
    ensures InNamespace(a + b, namespace) == InNamespace(a, namespace) + InNamespace(b, namespace)
  {
    if b == [] {
      assert a + b == a;
    } else {
      var init := b[..|b| - 1];
      var last := b[|b| - 1];
      assert b == init + [last];
      assert a + b == (a + init) + [last];
      InNamespaceDistributes(a, init, namespace);
      InNamespaceSnoc(a + init, last, namespace);
      InNamespaceSnoc(init, last, namespace);
    }
  }

  /** Highest sequence number in a namespace, if it has any rows. */
  function LastSequenceNumber(rows: seq<ChatMessage>, namespace: string): (r: Option<int>)
    ensures r.None? <==> forall i :: 0 <= i < |rows| ==> rows[i].namespace != namespace
    ensures r.Some? ==> exists i :: 0 <= i < |rows| && rows[i].namespace == namespace && rows[i].sequenceNumber == r.value
    ensures r.Some? ==> forall i :: 0 <= i < |rows| && rows[i].namespace == namespace ==> rows[i].sequenceNumber <= r.value
    decreases |rows|
  {
    if rows == [] then None
    else
      var init := rows[..|rows| - 1];
      var last := rows[|rows| - 1];
      assert forall i :: 0 <= i < |init| ==> init[i] == rows[i];
      var before := LastSequenceNumber(init, namespace);
      if last.namespace != namespace then before
      else if before.None? || before.value < last.sequenceNumber then Some(last.sequenceNumber)
      else before
  }

  /** The number the next message of a namespace receives: 0 for a new
      namespace, otherwise one past the highest number it holds. */
  function NextSequenceNumber(rows: seq<ChatMessage>, namespace: string): (n: int)
    ensures (forall i :: 0 <= i < |rows| ==> rows[i].namespace != namespace) ==> n == 0
    ensures forall i :: 0 <= i < |rows| && rows[i].namespace == namespace ==> rows[i].sequenceNumber < n
    ensures (exists i :: 0 <= i < |rows| && rows[i].namespace == namespace) ==>
              exists i :: 0 <= i < |rows| && rows[i].namespace == namespace && rows[i].sequenceNumber == n - 1
  {
    match LastSequenceNumber(rows, namespace)
    case None => 0
    case Some(n) => n + 1
  }

  /** The log after one append: the stored rows are untouched and the new
      row, numbered above every row of its namespace, comes last. */
  function Append(rows: seq<ChatMessage>, namespace: string, aiMessage: string, humanMessage: string): (all: seq<ChatMessage>)
    ensures |all| == |rows| + 1 && all[..|rows|] == rows
    ensures all[|rows|].namespace == namespace && all[|rows|].aiMessage == aiMessage && all[|rows|].humanMessage == humanMessage
    ensures forall i :: 0 <= i < |rows| && rows[i].namespace == namespace ==> rows[i].sequenceNumber < all[|rows|].sequenceNumber
  {
    rows + [ChatMessage(aiMessage, humanMessage, NextSequenceNumber(rows, namespace), namespace)]
  }

  /** The log after appending the given (human, ai) turns to one namespace in order. */
  function AppendAll(rows: seq<ChatMessage>, namespace: string, turns: seq<(string, string)>): seq<ChatMessage>
    decreases |turns|
  {
    if turns == [] then rows
    else
      var last := turns[|turns| - 1];
      Append(AppendAll(rows, namespace, turns[..|turns| - 1]), namespace, last.1, last.0)
  }

  /** The (human, ai) pairs of a namespace in storage order. */
  function History(rows: seq<ChatMessage>, namespace: string): seq<(string, string)>
  {
    var own := InNamespace(rows, namespace);
    seq(|own|, j requires 0 <= j < |own| => (own[j].humanMessage, own[j].aiMessage))
  }

  /** Every row carries the number of earlier rows of its namespace: numbers
      within a namespace run 0, 1, 2, ... in storage order. */
  ghost predicate WellNumbered(rows: seq<ChatMessage>)
    decreases |rows|
  {
    rows == [] ||
    var init := rows[..|rows| - 1];
    var last := rows[|rows| - 1];
    WellNumbered(init) && last.sequenceNumber == |InNamespace(init, last.namespace)|
  }

  /** In a well-numbered log the j-th row of a namespace has number j, so
      storage order within a namespace is ascending sequence order. */
  lemma {:induction false} NamespaceNumbering(rows: seq<ChatMessage>, namespace: string)
    requires WellNumbered(rows)
    ensures forall j :: 0 <= j < |InNamespace(rows, namespace)| ==> InNamespace(rows, namespace)[j].sequenceNumber == j
  {
    if rows != [] {
      NamespaceNumbering(rows[..|rows| - 1], namespace);
    }
  }

  /** In a well-numbered log the next number is the namespace's row count. */
  lemma {:induction false} NextIsCount(rows: seq<ChatMessage>, namespace: string)
    requires WellNumbered(rows)
    ensures NextSequenceNumber(rows, namespace) == |InNamespace(rows, namespace)|
  {
    if rows != [] {
      NextIsCount(rows[..|rows| - 1], namespace);
    }
  }

  /** Appending keeps the log well numbered. */
  lemma AppendKeepsNumbering(rows: seq<ChatMessage>, namespace: string, aiMessage: string, humanMessage: string)
    requires WellNumbered(rows)
    ensures WellNumbered(Append(rows, namespace, aiMessage, humanMessage))
  {
    var all := Append(rows, namespace, aiMessage, humanMessage);
    NextIsCount(rows, namespace);
    assert all[..|all| - 1] == rows;
  }

  /** An append adds exactly one pair at the end of its own namespace's
      history and leaves every other namespace's history as it was. */
  lemma AppendHistory(rows: seq<ChatMessage>, namespace: string, aiMessage: string, humanMessage: string, other: string)
    ensures History(Append(rows, namespace, aiMessage, humanMessage), namespace) == History(rows, namespace) + [(humanMessage, aiMessage)]
    ensures other != namespace ==> History(Append(rows, namespace, aiMessage, humanMessage), other) == History(rows, other)
  {
    var row := ChatMessage(aiMessage, humanMessage, NextSequenceNumber(rows, namespace), namespace);
    InNamespaceSnoc(rows, row, namespace);
    InNamespaceSnoc(rows, row, other);
  }

  /** Appending turns one by one keeps the log well numbered. */
  lemma {:induction false} AppendAllKeepsNumbering(rows: seq<ChatMessage>, namespace: string, turns: seq<(string, string)>)
    requires WellNumbered(rows)
    ensures WellNumbered(AppendAll(rows, namespace, turns))
    decreases |turns|
  {
    if turns != [] {
      var last := turns[|turns| - 1];
      AppendAllKeepsNumbering(rows, namespace, turns[..|turns| - 1]);
      AppendKeepsNumbering(AppendAll(rows, namespace, turns[..|turns| - 1]), namespace, last.1, last.0);
    }
  }

  /** Appending turns one by one adds them, in order, to the end of the
      namespace's history. */
  lemma {:induction false} AppendAllHistory(rows: seq<ChatMessage>, namespace: string, turns: seq<(string, string)>)
    ensures History(AppendAll(rows, namespace, turns), namespace) == History(rows, namespace) + turns
    decreases |turns|
  {
    if turns != [] {
      var init := turns[..|turns| - 1];
      var last := turns[|turns| - 1];
      assert turns == init + [last];
      var before := AppendAll(rows, namespace, init);
      AppendAllHistory(rows, namespace, init);
      AppendHistory(before, namespace, last.1, last.0, namespace);
    }
  }

  /** N appends to a namespace of an empty log are numbered exactly 0 .. N-1,
      and the namespace's history is the appended turns in order. */
  lemma AppendsNumberFromZero(rows: seq<ChatMessage>, namespace: string, turns: seq<(string, string)>)
    requires WellNumbered(rows) && InNamespace(rows, namespace) == []
    ensures var all := AppendAll(rows, namespace, turns);
            History(all, namespace) == turns &&
            |InNamespace(all, namespace)| == |turns| &&
            forall j :: 0 <= j < |turns| ==> InNamespace(all, namespace)[j].sequenceNumber == j
  {
    var all := AppendAll(rows, namespace, turns);
    AppendAllKeepsNumbering(rows, namespace, turns);
    AppendAllHistory(rows, namespace, turns);
    NamespaceNumbering(all, namespace);
  }

  /** The log holds, in the namespace, a message numbered `number` with this
      (human, ai) pair. */
  ghost predicate StoredAs(rows: seq<ChatMessage>, namespace: string, number: int, pair: (string, string))
  {
    exists i :: 0 <= i < |rows| && rows[i].namespace == namespace && rows[i].sequenceNumber == number &&
                pair == (rows[i].humanMessage, rows[i].aiMessage)
  }

  /** The append-only conversation log. */
  class ChatManager {
    var rows: seq<ChatMessage>

    ghost predicate Valid()
      reads this
    {
      WellNumbered(rows)
    }

    /** Opens the log with rows earlier appends left in it. */
    constructor (stored: seq<ChatMessage>)
      requires WellNumbered(stored)
      ensures Valid() && rows == stored
    {
      rows := stored;
    }

    /** Stores one turn under the namespace's highest number plus one, or 0
        for a namespace with no rows. */
    method AddMessage(namespace: string, aiMessage: string, humanMessage: string)
      modifies this
      ensures rows == Append(old(rows), namespace, aiMessage, humanMessage)
      ensures old(Valid()) ==> Valid()
    {
      var lastMessage := LastSequenceNumber(rows, namespace);
      var sequenceNumber;
      if lastMessage.None? {
        sequenceNumber := 0;
      } else {
        sequenceNumber := lastMessage.value + 1;
      }
      if WellNumbered(rows) {
        AppendKeepsNumbering(rows, namespace, aiMessage, humanMessage);
      }
      rows := rows + [ChatMessage(aiMessage, humanMessage, sequenceNumber, namespace)];
    }

    /** The namespace's (human, ai) pairs by ascending sequence number; the
        j-th pair is the message numbered j, and an unknown namespace gives
        the empty list. */
    method RetrieveAllMessages(namespace: string) returns (r: seq<(string, string)>)
      requires Valid()
      ensures r == History(rows, namespace)
      ensures (forall i :: 0 <= i < |rows| ==> rows[i].namespace != namespace) ==> r == []
      ensures forall j :: 0 <= j < |r| ==> StoredAs(rows, namespace, j, r[j])
    {
      var query := InNamespace(rows, namespace);
      r := seq(|query|, j requires 0 <= j < |query| => (query[j].humanMessage, query[j].aiMessage));
      NamespaceNumbering(rows, namespace);
      forall j | 0 <= j < |r| ensures StoredAs(rows, namespace, j, r[j]) {
        assert query[j] in rows;
      }
      if query != [] {
        assert query[0] in rows;
      }
    }
  }

  /** Two users' appends stay apart. */
  lemma TwoNamespacesStayApart()
    ensures var rows := Append(Append([], "u1", "hello", "hi"), "u2", "hello", "hi");
            History(rows, "u1") == [("hi", "hello")] && History(rows, "u2") == [("hi", "hello")]
  {
    AppendHistory([], "u1", "hello", "hi", "u2");
    AppendHistory(Append([], "u1", "hello", "hi"), "u2", "hello", "hi", "u1");
  }
}
