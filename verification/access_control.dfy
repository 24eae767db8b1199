/**
 * The access-control matrix of the matrix demonstration tool (ACMTool): a list
 * of subjects, a list of objects, and for every subject a row mapping every
 * object to the set of rights the subject holds on it. The lists and the
 * rows are updated in place; the allow/deny check and the rendering of a
 * row are reads.
 */
module AccessControl {

  import opened StringOrder

  /** The three fields of the tool that hold the matrix. */
  datatype State = State(subjects: seq<string>, objects: seq<string>, matrix: map<string, map<string, set<string>>>)

  /** The outcome of the check dialog: allowed, denied, or the error shown
      when the subject or the object does not exist. */
  datatype Verdict = Allow | Deny | Unknown

  /** No name appears twice. */
  predicate Distinct(names: seq<string>)
  {
    forall i, j :: 0 <= i < j < |names| ==> names[i] != names[j]
  }

  /** No name is empty. */
  predicate NonEmptyNames(names: seq<string>)
  {
    forall i :: 0 <= i < |names| ==> names[i] != ""
  }

  /** A row giving every listed object the empty set of rights. */
  function EmptyRow(objs: seq<string>): (row: map<string, set<string>>)
    ensures forall o :: o in row <==> o in objs
    ensures forall o :: o in row ==> row[o] == {}
  {
    map o | o in objs :: {}
  }

  /** How a set of rights is shown in the matrix view: "-" for no rights,
      otherwise the rights in ascending order separated by commas. */
  ghost function CellText(perms: set<string>): string
  {
    if perms == {} then "-" else Join(SortedElems(perms), ',')
  }

  /** The sorted listing of the rights and its comma join. */
  method RenderCell(perms: set<string>) returns (text: string)
    ensures text == CellText(perms)
  {
    if perms == {} {
      return "-";
    }
    var sorted: seq<string> := [];
    var rest := perms;
    while rest != {}
      invariant StrictlySorted(sorted)
      invariant forall x :: x in perms <==> x in sorted || x in rest
      invariant forall i :: 0 <= i < |sorted| ==> sorted[i] !in rest
      invariant forall i, y :: 0 <= i < |sorted| && y in rest ==> Below(sorted[i], y)
      decreases |rest|
    {
      LeastExists(rest);
      var m :| IsLeast(m, rest);
      sorted := sorted + [m];
      rest := rest - {m};
    }
    SortedUnique(sorted, SortedElems(perms));
    text := Join(sorted, ',');
  }

  /** "-" stands both for no rights and for the single right named "-". */
  lemma CellTextDash(perms: set<string>)
    ensures CellText(perms) == "-" <==> perms == {} || perms == {"-"}
  {
    if perms != {} {
      var sorted := SortedElems(perms);
      if |sorted| >= 2 {
        JoinHasSeparator(sorted, ',');
      }
      if perms == {"-"} {
        assert sorted[0] in perms;
      }
      if |sorted| == 1 && sorted[0] == "-" {
        assert forall x :: x in perms ==> x in sorted;
      }
    }
  }

  /** The text of a non-empty cell splits at the commas back into the sorted
      rights, provided no right contains a comma. */
  lemma CellTextSplits(perms: set<string>)
    requires perms != {}
    requires forall x :: x in perms ==> ',' !in x
    ensures Split(CellText(perms), ',') == SortedElems(perms)
  {
    var sorted := SortedElems(perms);
    assert forall i :: 0 <= i < |sorted| ==> sorted[i] in perms;
    SplitJoin(sorted, ',');
  }

  // ---------------------------------------------------------------------
  // The matrix as a value: invariant and operations
  // ---------------------------------------------------------------------

  /** Coverage: a row for exactly the listed subjects, and in every row a
      cell for exactly the listed objects; the lists hold distinct, non-empty
      names. */
  ghost predicate ValidState(st: State)
  {
    Distinct(st.subjects) && NonEmptyNames(st.subjects)
    && Distinct(st.objects) && NonEmptyNames(st.objects)
    && (forall s :: s in st.matrix <==> s in st.subjects)
    && (forall s, o :: s in st.matrix ==> (o in st.matrix[s] <==> o in st.objects))
  }

  /** The rights of `s` on `o`; none when there is no such cell (the
      `.get(obj, set())` of the view). */
  function Cell(st: State, s: string, o: string): set<string>
  {
    if s in st.matrix && o in st.matrix[s] then st.matrix[s][o] else {}
  }

  /** `add_subject_logic` on the state: an empty or already listed name
      changes nothing; otherwise the name is appended to the subjects and
      gets a row of its own. */
  function AddedSubject(st: State, name: string): (r: State)
    ensures r.objects == st.objects
    ensures name == "" || name in st.subjects ==> r == st
    ensures name != "" && name !in st.subjects ==> r.subjects == st.subjects + [name] && name in r.matrix
  {
    if name == "" || name in st.subjects then st
    else State(st.subjects + [name], st.objects, st.matrix[name := EmptyRow(st.objects)])
  }

  /** The new subject holds no rights on any listed object, and no other
      subject's rights change. */
  lemma AddedSubjectCells(st: State, name: string)
    requires name != "" && name !in st.subjects
    ensures forall o :: o in st.objects ==> o in AddedSubject(st, name).matrix[name]
    ensures forall o :: Cell(AddedSubject(st, name), name, o) == {}
    ensures forall s, o :: s != name ==> Cell(AddedSubject(st, name), s, o) == Cell(st, s, o)
  {
  }

  /** Adding a subject keeps the matrix covered. */
  lemma AddedSubjectValid(st: State, name: string)
    requires ValidState(st)
    ensures ValidState(AddedSubject(st, name))
  {
    var r := AddedSubject(st, name);
    if name != "" && name !in st.subjects {
      assert forall i :: 0 <= i < |st.subjects| ==> r.subjects[i] == st.subjects[i];
    }
  }

  /** `add_object_logic` on the state: an empty or already listed name
      changes nothing; otherwise the name is appended to the objects and
      every listed subject's row lacking it gains a cell for it. */
  function AddedObject(st: State, name: string): (r: State)
    ensures r.subjects == st.subjects
    ensures name == "" || name in st.objects ==> r == st
    ensures name != "" && name !in st.objects ==> r.objects == st.objects + [name] && r.matrix.Keys == st.matrix.Keys
  {
    if name == "" || name in st.objects then st
    else State(st.subjects, st.objects + [name], map s | s in st.matrix :: WithCell(st.matrix[s], s in st.subjects, name))
  }

  /** A row after the object loop has visited it (or not). */
  function WithCell(row: map<string, set<string>>, visited: bool, name: string): map<string, set<string>>
  {
    if visited && name !in row then row[name := {}] else row
  }

  /** Every listed subject's row has a cell for the new object, every
      existing cell keeps its rights, and a new cell holds none. */
  lemma AddedObjectCells(st: State, name: string)
    requires name != "" && name !in st.objects
    ensures forall s :: s in st.subjects && s in st.matrix ==> name in AddedObject(st, name).matrix[s]
    ensures forall s, o :: o != name ==> Cell(AddedObject(st, name), s, o) == Cell(st, s, o)
    ensures forall s :: Cell(AddedObject(st, name), s, name) == Cell(st, s, name)
  {
  }

  /** Adding an object keeps the matrix covered. */
  lemma AddedObjectValid(st: State, name: string)
    requires ValidState(st)
    ensures ValidState(AddedObject(st, name))
  {
    var r := AddedObject(st, name);
    if name != "" && name !in st.objects {
      assert forall i :: 0 <= i < |st.objects| ==> r.objects[i] == st.objects[i];
    }
  }

  /** `set_permission` on the state: for a listed subject and a listed
      object the cell's rights are replaced; otherwise nothing changes. */
  function PermissionSet(st: State, sub: string, obj: string, rights: set<string>): (r: State)
    requires ValidState(st)
    ensures r.subjects == st.subjects && r.objects == st.objects
    ensures !(sub in st.subjects && obj in st.objects) ==> r == st
  {
    if sub in st.subjects && obj in st.objects then
      st.(matrix := st.matrix[sub := st.matrix[sub][obj := rights]])
    else st
  }

  /** The named cell of listed names holds exactly `rights` afterwards, and
      every other cell keeps its rights. */
  lemma PermissionSetCells(st: State, sub: string, obj: string, rights: set<string>)
    requires ValidState(st)
    ensures sub in st.subjects && obj in st.objects ==> Cell(PermissionSet(st, sub, obj, rights), sub, obj) == rights
    ensures forall s, o :: s != sub || o != obj ==> Cell(PermissionSet(st, sub, obj, rights), s, o) == Cell(st, s, o)
  {
  }

  /** Setting a permission keeps the matrix covered. */
  lemma PermissionSetValid(st: State, sub: string, obj: string, rights: set<string>)
    requires ValidState(st)
    ensures ValidState(PermissionSet(st, sub, obj, rights))
  {
  }

  /** The `check` closure of the check dialog: an error when the subject has
      no row or the row no cell for the object, otherwise allow exactly when
      the requested right is in the cell. On a covered matrix the error
      means exactly that a name is not listed. */
  function Check(st: State, s: string, o: string, op: string): (v: Verdict)
    ensures ValidState(st) ==> (v == Unknown <==> s !in st.subjects || o !in st.objects)
    ensures v == Allow <==> op in Cell(st, s, o) && v != Unknown
    ensures v == Deny ==> op !in Cell(st, s, o)
  {
    if s in st.matrix && o in st.matrix[s] then
      if op in st.matrix[s][o] then Allow else Deny
    else Unknown
  }

  /** A new subject is denied everything on every listed object. */
  lemma NewSubjectDenied(st: State, name: string, o: string, op: string)
    requires ValidState(st) && name != "" && name !in st.subjects && o in st.objects
    ensures Check(AddedSubject(st, name), name, o, op) == Deny
  {
    var r := AddedSubject(st, name);
    AddedSubjectCells(st, name);
    assert name in r.subjects && o in r.objects;
  }

  /** Every listed subject is denied everything on a new object. */
  lemma NewObjectDenied(st: State, name: string, s: string, op: string)
    requires ValidState(st) && name != "" && name !in st.objects && s in st.subjects
    ensures Check(AddedObject(st, name), s, name, op) == Deny
  {
    var r := AddedObject(st, name);
    AddedObjectCells(st, name);
    AddedObjectValid(st, name);
    assert s in r.subjects && name in r.objects;
    assert s !in st.matrix || name !in st.matrix[s];
  }

  /** After `set_permission` on listed names, the check on that cell allows
      exactly the given rights. */
  lemma CheckAfterPermission(st: State, sub: string, obj: string, rights: set<string>, op: string)
    requires ValidState(st) && sub in st.subjects && obj in st.objects
    ensures Check(PermissionSet(st, sub, obj, rights), sub, obj, op) == if op in rights then Allow else Deny
  {
    var r := PermissionSet(st, sub, obj, rights);
    PermissionSetCells(st, sub, obj, rights);
    PermissionSetValid(st, sub, obj, rights);
    assert sub in r.subjects && obj in r.objects;
  }

  /** The empty matrix the tool starts from. */
  const EMPTY: State := State([], [], map[])

  /** The matrix `init_data` leaves. */
  function InitialState(): State
  {
    State(["Alice", "Bob", "Admin"], ["File1.txt", "File2.txt", "App.exe"],
      map[
        "Alice" := map["File1.txt" := {"Read", "Write"}, "File2.txt" := {}, "App.exe" := {}],
        "Bob" := map["File1.txt" := {"Read"}, "File2.txt" := {}, "App.exe" := {}],
        "Admin" := map["File1.txt" := {"Read", "Write", "Own"}, "File2.txt" := {}, "App.exe" := {"Execute"}]
      ])
  }

  /** The names of the initial matrix, each cell still without rights. */
  const NAMES_ONLY: State := State(["Alice", "Bob", "Admin"], ["File1.txt", "File2.txt", "App.exe"],
    map["Alice" := ROW3, "Bob" := ROW3, "Admin" := ROW3])

  const ROW1: map<string, set<string>> := map["File1.txt" := {}]
  const ROW2: map<string, set<string>> := map["File1.txt" := {}, "File2.txt" := {}]
  const ROW3: map<string, set<string>> := map["File1.txt" := {}, "File2.txt" := {}, "App.exe" := {}]

  /** The three subjects of `init_data`, with empty rows. */
  function WithSubjects(): State
  {
    AddedSubject(AddedSubject(AddedSubject(EMPTY, "Alice"), "Bob"), "Admin")
  }

  /** The three objects of `init_data`, added after the subjects. */
  function WithObjects(): State
  {
    AddedObject(AddedObject(AddedObject(WithSubjects(), "File1.txt"), "File2.txt"), "App.exe")
  }

  lemma SubjectsAdded()
    ensures WithSubjects() == State(["Alice", "Bob", "Admin"], [], map["Alice" := map[], "Bob" := map[], "Admin" := map[]])
  {
  }

  lemma ObjectAddedToEveryRow(subjects: seq<string>, objects: seq<string>, row: map<string, set<string>>, name: string)
    requires |subjects| == 3 && name != "" && name !in objects && name !in row
    ensures AddedObject(State(subjects, objects, map[subjects[0] := row, subjects[1] := row, subjects[2] := row]), name)
      == State(subjects, objects + [name], map[subjects[0] := row[name := {}], subjects[1] := row[name := {}], subjects[2] := row[name := {}]])
  {
    var m := map[subjects[0] := row, subjects[1] := row, subjects[2] := row];
    var r := AddedObject(State(subjects, objects, m), name);
    var e := map[subjects[0] := row[name := {}], subjects[1] := row[name := {}], subjects[2] := row[name := {}]];
    assert r.matrix.Keys == m.Keys == e.Keys;
    forall s | s in e
      ensures r.matrix[s] == e[s]
    {
      assert s == subjects[0] || s == subjects[1] || s == subjects[2];
      assert s in subjects;
    }
    assert r.matrix == e;
  }

  /** The six additions of `init_data` on the empty matrix give every listed
      subject a row with no rights on every listed object. */
  lemma InitialNames()
    ensures WithObjects() == NAMES_ONLY
  {
    FirstObjectAdded();
    SecondObjectAdded();
    ThirdObjectAdded();
  }

  lemma FirstObjectAdded()
    ensures AddedObject(WithSubjects(), "File1.txt")
      == State(["Alice", "Bob", "Admin"], ["File1.txt"], map["Alice" := ROW1, "Bob" := ROW1, "Admin" := ROW1])
  {
    SubjectsAdded();
    ObjectAddedToEveryRow(["Alice", "Bob", "Admin"], [], map[], "File1.txt");
    assert map[]["File1.txt" := {}] == ROW1;
  }

  lemma SecondObjectAdded()
    ensures AddedObject(State(["Alice", "Bob", "Admin"], ["File1.txt"], map["Alice" := ROW1, "Bob" := ROW1, "Admin" := ROW1]), "File2.txt")
      == State(["Alice", "Bob", "Admin"], ["File1.txt", "File2.txt"], map["Alice" := ROW2, "Bob" := ROW2, "Admin" := ROW2])
  {
    ObjectAddedToEveryRow(["Alice", "Bob", "Admin"], ["File1.txt"], ROW1, "File2.txt");
    assert ROW1["File2.txt" := {}] == ROW2;
  }

  lemma ThirdObjectAdded()
    ensures AddedObject(State(["Alice", "Bob", "Admin"], ["File1.txt", "File2.txt"], map["Alice" := ROW2, "Bob" := ROW2, "Admin" := ROW2]), "App.exe")
      == NAMES_ONLY
  {
    ObjectAddedToEveryRow(["Alice", "Bob", "Admin"], ["File1.txt", "File2.txt"], ROW2, "App.exe");
    assert ROW2["App.exe" := {}] == ROW3;
  }

  lemma NamesOnlyValid()
    ensures ValidState(NAMES_ONLY)
  {
  }

  /** The matrix after the first one, two and three `set_permission` calls
      of `init_data`. */
  const AFTER_ALICE: State := NAMES_ONLY.(matrix := NAMES_ONLY.matrix["Alice" := ROW3["File1.txt" := {"Read", "Write"}]])
  const AFTER_BOB: State := AFTER_ALICE.(matrix := AFTER_ALICE.matrix["Bob" := ROW3["File1.txt" := {"Read"}]])
  const AFTER_ADMIN: State := AFTER_BOB.(matrix := AFTER_BOB.matrix["Admin" := ROW3["File1.txt" := {"Read", "Write", "Own"}]])

  lemma AliceGranted()
    ensures ValidState(NAMES_ONLY) && PermissionSet(NAMES_ONLY, "Alice", "File1.txt", {"Read", "Write"}) == AFTER_ALICE
  {
    NamesOnlyValid();
    assert NAMES_ONLY.matrix["Alice"] == ROW3;
  }

  lemma BobGranted()
    ensures ValidState(AFTER_ALICE) && PermissionSet(AFTER_ALICE, "Bob", "File1.txt", {"Read"}) == AFTER_BOB
  {
    AliceGranted();
    PermissionSetValid(NAMES_ONLY, "Alice", "File1.txt", {"Read", "Write"});
    assert AFTER_ALICE.matrix["Bob"] == ROW3;
  }

  lemma AdminGranted()
    ensures ValidState(AFTER_BOB) && PermissionSet(AFTER_BOB, "Admin", "File1.txt", {"Read", "Write", "Own"}) == AFTER_ADMIN
  {
    BobGranted();
    PermissionSetValid(AFTER_ALICE, "Bob", "File1.txt", {"Read"});
    assert AFTER_BOB.matrix["Admin"] == ROW3;
  }

  /** The last `set_permission` call of `init_data` completes the initial
      matrix: Alice may read and write File1.txt, Bob may read it, Admin may
      read, write and own it and execute App.exe, and no other right is
      held. */
  lemma ExecuteGranted()
    ensures ValidState(AFTER_ADMIN) && PermissionSet(AFTER_ADMIN, "Admin", "App.exe", {"Execute"}) == InitialState()
  {
    AdminGranted();
    PermissionSetValid(AFTER_BOB, "Admin", "File1.txt", {"Read", "Write", "Own"});
    assert AFTER_ADMIN.matrix["Admin"] == ROW3["File1.txt" := {"Read", "Write", "Own"}];
    InitialRows();
  }

  /** Checks on the initial matrix as the check dialog answers them. */
  lemma InitialChecks()
    ensures Check(InitialState(), "Admin", "App.exe", "Execute") == Allow
    ensures Check(InitialState(), "Alice", "File1.txt", "Write") == Allow
    ensures Check(InitialState(), "Bob", "File1.txt", "Write") == Deny
    ensures Check(InitialState(), "Bob", "File2.txt", "Read") == Deny
    ensures Check(InitialState(), "Eve", "File1.txt", "Read") == Unknown
  {
  }

  /** The initial matrix, written as the updates `init_data` makes to the
      named but empty one. */
  lemma InitialRows()
    ensures InitialState().matrix == NAMES_ONLY.matrix
      ["Alice" := ROW3["File1.txt" := {"Read", "Write"}]]
      ["Bob" := ROW3["File1.txt" := {"Read"}]]
      ["Admin" := ROW3["File1.txt" := {"Read", "Write", "Own"}]["App.exe" := {"Execute"}]]
  {
    var lit := InitialState().matrix;
    var upd := NAMES_ONLY.matrix
      ["Alice" := ROW3["File1.txt" := {"Read", "Write"}]]
      ["Bob" := ROW3["File1.txt" := {"Read"}]]
      ["Admin" := ROW3["File1.txt" := {"Read", "Write", "Own"}]["App.exe" := {"Execute"}]];
    assert lit.Keys == upd.Keys;
    RowGranted({"Read", "Write"});
    RowGranted({"Read"});
    assert lit["Admin"] == upd["Admin"];
  }

  /** Rights on the first object of an otherwise empty row. */
  lemma RowGranted(rights: set<string>)
    ensures ROW3["File1.txt" := rights] == map["File1.txt" := rights, "File2.txt" := {}, "App.exe" := {}]
  {
  }

  /** The empty row of a prefix one longer has one more cell. */
  lemma EmptyRowGrows(objs: seq<string>, i: nat)
    requires i < |objs|
    ensures EmptyRow(objs[..i + 1]) == EmptyRow(objs[..i])[objs[i] := {}]
  {
    PrefixMembers(objs, i);
  }

  /** The names in a prefix one longer are those of the prefix and the next. */
  lemma PrefixMembers(names: seq<string>, i: nat)
    requires i < |names|
    ensures forall s :: s in names[..i + 1] <==> s in names[..i] || s == names[i]
  {
    assert names[..i + 1] == names[..i] + [names[i]];
  }

  // ---------------------------------------------------------------------
  // The tool's fields, updated in place
  // ---------------------------------------------------------------------

  /** The matrix held by the tool. */
  class AccessMatrix {
    var subjects: seq<string>
    var objects: seq<string>
    var matrix: map<string, map<string, set<string>>>

    function Snapshot(): State
      reads this
    {
      State(subjects, objects, matrix)
    }

    ghost predicate Valid()
      reads this
    {
      ValidState(Snapshot())
    }

    /** `__init__` without the window: empty lists and matrix, then `init_data`. */
    constructor ()
      ensures Valid() && Snapshot() == InitialState()
    {
      subjects := [];
      objects := [];
      matrix := map[];
      new;
      InitData();
    }

    /** `add_subject_logic`: the row is built by a loop over the objects. */
    method AddSubject(name: string)
      requires Valid()
      modifies this
      ensures Valid() && Snapshot() == AddedSubject(old(Snapshot()), name)
    {
      if name != "" && name !in subjects {
        subjects := subjects + [name];
        AddRow(name);
      }
      AddedSubjectValid(old(Snapshot()), name);
    }

    /** The row of a new subject: an empty row, then a cell with no rights
        for each listed object in turn. */
    method AddRow(name: string)
      modifies this
      ensures subjects == old(subjects) && objects == old(objects)
      ensures matrix == old(matrix)[name := EmptyRow(objects)]
    {
      matrix := matrix[name := map[]];
      for i := 0 to |objects|
        invariant subjects == old(subjects) && objects == old(objects)
        invariant matrix == old(matrix)[name := EmptyRow(objects[..i])]
      {
        EmptyRowGrows(objects, i);
        matrix := matrix[name := matrix[name][objects[i] := {}]];
      }
      assert objects[..|objects|] == objects;
    }

    /** `add_object_logic`: the name is appended to the objects, then a loop
        over the subjects adds the cell. */
    method AddObject(name: string)
      requires Valid()
      modifies this
      ensures Valid() && Snapshot() == AddedObject(old(Snapshot()), name)
    {
      if name != "" && name !in objects {
        objects := objects + [name];
        AddCells(name);
      }
      AddedObjectValid(old(Snapshot()), name);
    }

    /** The loop of `add_object_logic`: each listed subject's row that lacks
        a cell for `name` gains one with no rights. */
    method AddCells(name: string)
      requires forall s :: s in subjects ==> s in matrix
      modifies this
      ensures subjects == old(subjects) && objects == old(objects)
      ensures matrix == map s | s in old(matrix) :: WithCell(old(matrix)[s], s in subjects, name)
    {
      for i := 0 to |subjects|
        invariant subjects == old(subjects) && objects == old(objects)
        invariant matrix.Keys == old(matrix).Keys
        invariant forall s :: s in matrix ==> matrix[s] == WithCell(old(matrix)[s], s in subjects[..i], name)
      {
        var sub := subjects[i];
        if name !in matrix[sub] {
          matrix := matrix[sub := matrix[sub][name := {}]];
        }
        PrefixMembers(subjects, i);
      }
      assert subjects[..|subjects|] == subjects;
    }

    /** `set_permission`. */
    method SetPermission(sub: string, obj: string, rights: set<string>)
      requires Valid()
      modifies this
      ensures Valid() && Snapshot() == PermissionSet(old(Snapshot()), sub, obj, rights)
    {
      if sub in subjects && obj in objects {
        matrix := matrix[sub := matrix[sub][obj := rights]];
      }
      PermissionSetValid(old(Snapshot()), sub, obj, rights);
    }

    /** `init_data`, run on the empty matrix. */
    method InitData()
      requires Snapshot() == EMPTY
      modifies this
      ensures Valid() && Snapshot() == InitialState()
    {
      AddSubject("Alice");
      AddSubject("Bob");
      AddSubject("Admin");
      AddObject("File1.txt");
      AddObject("File2.txt");
      AddObject("App.exe");
      InitialNames();
      assert Snapshot() == NAMES_ONLY;
      AliceGranted();
      SetPermission("Alice", "File1.txt", {"Read", "Write"});
      BobGranted();
      SetPermission("Bob", "File1.txt", {"Read"});
      AdminGranted();
      SetPermission("Admin", "File1.txt", {"Read", "Write", "Own"});
      ExecuteGranted();
      SetPermission("Admin", "App.exe", {"Execute"});
    }

    /** The rows of the matrix view (`refresh_view`): per subject in list
        order, the subject's name followed by the text of each of its cells
        in object order. */
    method RenderRows() returns (rows: seq<seq<string>>)
      requires Valid()
      ensures |rows| == |subjects|
      ensures forall i :: 0 <= i < |rows| ==> |rows[i]| == |objects| + 1 && rows[i][0] == subjects[i]
      ensures forall i, j :: 0 <= i < |rows| && 0 <= j < |objects| ==>
        rows[i][j + 1] == CellText(Cell(Snapshot(), subjects[i], objects[j]))
    {
      rows := [];
      for i := 0 to |subjects|
        invariant |rows| == i
        invariant forall k :: 0 <= k < i ==> |rows[k]| == |objects| + 1 && rows[k][0] == subjects[k]
        invariant forall k, j :: 0 <= k < i && 0 <= j < |objects| ==>
          rows[k][j + 1] == CellText(Cell(Snapshot(), subjects[k], objects[j]))
      {
        var values := RowValues(subjects[i]);
        rows := rows + [values];
      }
    }

    /** One row of the matrix view: the subject's name, then the text of its
        cell for each object in turn. */
    method RowValues(sub: string) returns (values: seq<string>)
      requires sub in matrix
      ensures |values| == |objects| + 1 && values[0] == sub
      ensures forall j :: 0 <= j < |objects| ==> values[j + 1] == CellText(Cell(Snapshot(), sub, objects[j]))
    {
      values := [sub];
      for j := 0 to |objects|
        invariant |values| == j + 1 && values[0] == sub
        invariant forall jj :: 0 <= jj < j ==> values[jj + 1] == CellText(Cell(Snapshot(), sub, objects[jj]))
      {
        var obj := objects[j];
        var perms := if obj in matrix[sub] then matrix[sub][obj] else {};
        var text := RenderCell(perms);
        values := values + [text];
      }
    }
  }
}
