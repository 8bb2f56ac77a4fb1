/** The batch loader (`load_data` in `main.py`): every file of the lookup
    directory holds one lookup document; the loader counts the documents with
    and without cases and flattens every case into one row tagged with the
    document's searched CPF (`chave_pesquisa`) and lookup time
    (`data_consulta`). The directory is given as the sequence of what opening
    and decoding each file yielded, in listing order. */
module Loader {
  import opened Common

  /** A member of a case object that the normaliser reads: it may be absent
      from the object, JSON null, text or a number. */
  datatype Field = Absent | Null | Text(s: string) | Number(x: real)

  /** One element of `processos` that is a JSON object. */
  datatype Case = Case(
    numeroProcesso: Option<string>,
    assunto: Option<string>,
    classe: Option<string>,
    tribunal: Option<string>,
    dataDistribuicao: Field,
    valorCausa: Field,
    partesPoloPassivo: Option<string>)

  /** An element of `processos`; assigning a key to an element that is not an
      object raises. */
  datatype Entry = CaseObject(c: Case) | NotAnObject

  /** What `data.get('processos')` yields: nothing (absent or null), an
      array, or some other JSON value, which is iterated only when truthy
      and then raises before any row is produced. */
  datatype Processos = Missing | Array(entries: seq<Entry>) | OtherValue(truthy: bool)

  datatype Document = Document(chavePesquisa: Option<string>, dataConsulta: Option<string>, processos: Processos)

  /** The outcome of `open` + `json.load` for one file: it failed, it decoded
      to something that is not an object (so `data.get` raises), or it
      decoded to a document. */
  datatype FileRead = Unreadable | NonObject | Parsed(doc: Document)

  /** One case tagged with its document's CPF and lookup time. */
  datatype Row = Row(c: Case, cpfConsulta: Option<string>, dataConsultaRef: Option<string>)

  datatype Summary = Summary(totalFiles: nat, withProcessos: nat, withoutProcessos: nat)

  function Add(a: Summary, b: Summary): Summary
  {
    Summary(a.totalFiles + b.totalFiles, a.withProcessos + b.withProcessos,
            a.withoutProcessos + b.withoutProcessos)
  }

  /** Python truthiness of `data.get('processos')`. */
  predicate HasProcessos(p: Processos)
  {
    match p
    case Missing => false
    case Array(entries) => |entries| > 0
    case OtherValue(truthy) => truthy
  }

  function Tag(c: Case, doc: Document): Row
  {
    Row(c, doc.chavePesquisa, doc.dataConsulta)
  }

  /** The rows appended while iterating `entries`: iteration stops, by an
      exception, at the first element that is not an object. */
  function TagPrefix(entries: seq<Entry>, doc: Document): (rows: seq<Row>)
    ensures |rows| <= |entries|
    ensures forall k :: 0 <= k < |rows| ==> entries[k].CaseObject? && rows[k] == Tag(entries[k].c, doc)
    ensures |rows| < |entries| ==> entries[|rows|].NotAnObject?
  {
    if entries == [] then []
    else match entries[0]
      case NotAnObject => []
      case CaseObject(c) => [Tag(c, doc)] + TagPrefix(entries[1..], doc)
  }

  /** The rows one file contributes: only a document with a non-empty
      `processos` array yields any, and each carries that document's CPF and
      lookup time. */
  function FileRows(f: FileRead): (rows: seq<Row>)
    ensures rows != [] ==> f.Parsed? && f.doc.processos.Array? && HasProcessos(f.doc.processos)
    ensures forall k :: 0 <= k < |rows| ==>
              rows[k].cpfConsulta == f.doc.chavePesquisa && rows[k].dataConsultaRef == f.doc.dataConsulta
  {
    if f.Parsed? && HasProcessos(f.doc.processos) && f.doc.processos.Array?
    then TagPrefix(f.doc.processos.entries, f.doc)
    else []
  }

  /** The counter increments one file causes: every decoded file is counted,
      and a decoded document is either with or without cases, never both. */
  function FileTally(f: FileRead): (s: Summary)
    ensures s.totalFiles == (if f.Unreadable? then 0 else 1)
    ensures s.withProcessos + s.withoutProcessos == (if f.Parsed? then 1 else 0)
  {
    match f
    case Unreadable => Summary(0, 0, 0)
    case NonObject => Summary(1, 0, 0)
    case Parsed(doc) => if HasProcessos(doc.processos) then Summary(1, 1, 0) else Summary(1, 0, 1)
  }

  /** All rows, in file order and then in document order. */
  function Flatten(files: seq<FileRead>): seq<Row>
  {
    if files == [] then [] else FileRows(files[0]) + Flatten(files[1..])
  }

  function Tally(files: seq<FileRead>): Summary
  {
    if files == [] then Summary(0, 0, 0) else Add(FileTally(files[0]), Tally(files[1..]))
  }

  /** `load_data`: returns the flattened rows and the three counters. */
  method LoadData(files: seq<FileRead>) returns (rows: seq<Row>, summary: Summary)
    ensures rows == Flatten(files)
    ensures summary == Tally(files)
  {
    rows := [];
    var total, withCases, withoutCases := 0, 0, 0;
    var i := 0;
    while i < |files|
      invariant 0 <= i <= |files|
      invariant rows == Flatten(files[..i])
      invariant total == Tally(files[..i]).totalFiles
      invariant withCases == Tally(files[..i]).withProcessos
      invariant withoutCases == Tally(files[..i]).withoutProcessos
    {
      FlattenStep(files, i);
      TallyStep(files, i);
      var s;
      rows, s := ReadFile(rows, Summary(total, withCases, withoutCases), files[i]);
      total, withCases, withoutCases := s.totalFiles, s.withProcessos, s.withoutProcessos;
      i := i + 1;
    }
    assert files[..i] == files;
    summary := Summary(total, withCases, withoutCases);
  }

  /** The body of the loop for one file: the counters it bumps and the rows it
      appends before finishing or raising. */
  method ReadFile(rows: seq<Row>, summary: Summary, f: FileRead) returns (rows': seq<Row>, summary': Summary)
    ensures rows' == rows + FileRows(f)
    ensures summary' == Add(summary, FileTally(f))
  {
    rows' := rows;
    var total, withCases, withoutCases := summary.totalFiles, summary.withProcessos, summary.withoutProcessos;
    match f {
      case Unreadable =>
        // open or json.load raised: the error is reported and nothing changes
      case NonObject =>
        // counted, then data.get raises
        total := total + 1;
      case Parsed(doc) =>
        total := total + 1;
        if HasProcessos(doc.processos) {
          withCases := withCases + 1;
          if doc.processos.Array? {
            rows' := AppendCases(rows', doc.processos.entries, doc);
          }
        } else {
          withoutCases := withoutCases + 1;
        }
    }
    summary' := Summary(total, withCases, withoutCases);
  }

  /** The inner `for proc in data['processos']` loop: tags and appends each
      case object until the first element that is not one. */
  method AppendCases(rows: seq<Row>, entries: seq<Entry>, doc: Document) returns (out: seq<Row>)
    ensures out == rows + TagPrefix(entries, doc)
  {
    out := rows;
    var j := 0;
    while j < |entries| && entries[j].CaseObject?
      invariant 0 <= j <= |entries|
      invariant out + TagPrefix(entries[j..], doc) == rows + TagPrefix(entries, doc)
    {
      assert entries[j..][1..] == entries[j + 1..];
      out := out + [Tag(entries[j].c, doc)];
      j := j + 1;
    }
    assert TagPrefix(entries[j..], doc) == [];
  }

  // ------------------------------------------------------------ composition

  lemma {:induction false} FlattenConcat(a: seq<FileRead>, b: seq<FileRead>)
    ensures Flatten(a + b) == Flatten(a) + Flatten(b)
  {
    if a != [] {
      assert (a + b)[1..] == a[1..] + b;
      FlattenConcat(a[1..], b);
    } else {
      assert a + b == b;
    }
  }

  lemma {:induction false} TallyConcat(a: seq<FileRead>, b: seq<FileRead>)
    ensures Tally(a + b) == Add(Tally(a), Tally(b))
  {
    if a != [] {
      assert (a + b)[1..] == a[1..] + b;
      TallyConcat(a[1..], b);
      AddAssoc(FileTally(a[0]), Tally(a[1..]), Tally(b));
    } else {
      assert a + b == b;
      AddZero(Tally(b));
    }
  }

  lemma FlattenAppend(a: seq<FileRead>, f: FileRead)
    ensures Flatten(a + [f]) == Flatten(a) + FileRows(f)
  {
    FlattenConcat(a, [f]);
    assert [f][1..] == [];
  }

  lemma TallyAppend(a: seq<FileRead>, f: FileRead)
    ensures Tally(a + [f]) == Add(Tally(a), FileTally(f))
  {
    TallyConcat(a, [f]);
    TallyOfOne(f);
  }

  lemma FlattenStep(files: seq<FileRead>, i: nat)
    requires i < |files|
    ensures Flatten(files[..i + 1]) == Flatten(files[..i]) + FileRows(files[i])
  {
    assert files[..i + 1] == files[..i] + [files[i]];
    FlattenAppend(files[..i], files[i]);
  }

  lemma TallyStep(files: seq<FileRead>, i: nat)
    requires i < |files|
    ensures Tally(files[..i + 1]) == Add(Tally(files[..i]), FileTally(files[i]))
  {
    assert files[..i + 1] == files[..i] + [files[i]];
    TallyAppend(files[..i], files[i]);
  }

  // ------------------------------------------------------------- properties

  function NonObjectCount(files: seq<FileRead>): nat
  {
    if files == [] then 0 else (if files[0].NonObject? then 1 else 0) + NonObjectCount(files[1..])
  }

  function DecodedCount(files: seq<FileRead>): nat
  {
    if files == [] then 0 else (if files[0].Unreadable? then 0 else 1) + DecodedCount(files[1..])
  }

  /** `total_files` counts the files that decoded; every decoded object bumps
      exactly one of the other two counters, and only a file whose JSON is not
      an object is counted in the total alone. */
  lemma {:induction false} CounterIdentity(files: seq<FileRead>)
    ensures Tally(files).totalFiles == DecodedCount(files)
    ensures Tally(files).totalFiles ==
            Tally(files).withProcessos + Tally(files).withoutProcessos + NonObjectCount(files)
    ensures NonObjectCount(files) == 0 ==>
            Tally(files).totalFiles == Tally(files).withProcessos + Tally(files).withoutProcessos
  {
    if files != [] {
      CounterIdentity(files[1..]);
      var rest := Tally(files[1..]);
      assert Tally(files) == Add(FileTally(files[0]), rest);
      match files[0] {
        case Unreadable =>
        case NonObject =>
        case Parsed(doc) =>
      }
    }
  }

  /** Inserting a file that yields no row leaves the rows as they were. */
  lemma FlattenSkipsSilentFile(before: seq<FileRead>, f: FileRead, after: seq<FileRead>)
    requires FileRows(f) == []
    ensures Flatten(before + [f] + after) == Flatten(before + after)
  {
    FlattenConcat(before + [f], after);
    FlattenAppend(before, f);
    assert Flatten(before + [f]) == Flatten(before);
    FlattenConcat(before, after);
  }

  /** Inserting a file anywhere adds its increments to the counters. */
  lemma TallyOfInsertedFile(before: seq<FileRead>, f: FileRead, after: seq<FileRead>)
    ensures Tally(before + [f] + after) == Add(Tally(before + after), FileTally(f))
  {
    var x, y, z := Tally(before), FileTally(f), Tally(after);
    TallyConcat(before + [f], after);
    TallyAppend(before, f);
    TallyConcat(before, after);
    AddSwap(x, y, z);
  }

  lemma AddSwap(x: Summary, y: Summary, z: Summary)
    ensures Add(Add(x, y), z) == Add(Add(x, z), y)
  {
  }

  lemma AddAssoc(x: Summary, y: Summary, z: Summary)
    ensures Add(x, Add(y, z)) == Add(Add(x, y), z)
  {
  }

  lemma AddZero(x: Summary)
    ensures Add(x, Summary(0, 0, 0)) == x && Add(Summary(0, 0, 0), x) == x
  {
  }

  /** A file that cannot be read, wherever it sits, changes neither the rows
      nor the counters. */
  lemma UnreadableChangesNothing(before: seq<FileRead>, after: seq<FileRead>)
    ensures Flatten(before + [Unreadable] + after) == Flatten(before + after)
    ensures Tally(before + [Unreadable] + after) == Tally(before + after)
  {
    FlattenSkipsSilentFile(before, Unreadable, after);
    TallyOfInsertedFile(before, Unreadable, after);
    AddZero(Tally(before + after));
  }

  /** A document whose `processos` is missing, null or empty adds no row and
      counts once in the total and once as "without". */
  lemma DocumentWithoutCases(before: seq<FileRead>, doc: Document, after: seq<FileRead>)
    requires !HasProcessos(doc.processos)
    ensures Flatten(before + [Parsed(doc)] + after) == Flatten(before + after)
    ensures Tally(before + [Parsed(doc)] + after) == Add(Tally(before + after), Summary(1, 0, 1))
  {
    assert FileRows(Parsed(doc)) == [] && FileTally(Parsed(doc)) == Summary(1, 0, 1);
    FlattenSkipsSilentFile(before, Parsed(doc), after);
    TallyOfInsertedFile(before, Parsed(doc), after);
  }

  /** A document whose `processos` is truthy counts once in the total and
      once as "with", wherever it sits in the directory. */
  lemma DocumentWithCases(before: seq<FileRead>, doc: Document, after: seq<FileRead>)
    requires HasProcessos(doc.processos)
    ensures Tally(before + [Parsed(doc)] + after) == Add(Tally(before + after), Summary(1, 1, 0))
  {
    assert FileTally(Parsed(doc)) == Summary(1, 1, 0);
    TallyOfInsertedFile(before, Parsed(doc), after);
  }

  /** Every row carries the CPF and lookup time of a document it came from,
      and its case is one of that document's case objects. */
  lemma {:induction false} RowProvenance(files: seq<FileRead>, k: nat)
    requires k < |Flatten(files)|
    ensures exists i :: 0 <= i < |files| && files[i].Parsed? && files[i].doc.processos.Array? &&
              CaseObject(Flatten(files)[k].c) in files[i].doc.processos.entries &&
              Flatten(files)[k].cpfConsulta == files[i].doc.chavePesquisa &&
              Flatten(files)[k].dataConsultaRef == files[i].doc.dataConsulta
  {
    var head := FileRows(files[0]);
    var tail := files[1..];
    var row := Flatten(files)[k];
    assert Flatten(files) == head + Flatten(tail);
    if k < |head| {
      assert row == head[k];
      assert files[0].doc.processos.entries[k] == CaseObject(row.c);
    } else {
      RowProvenance(tail, k - |head|);
      assert row == Flatten(tail)[k - |head|];
      var i :| 0 <= i < |tail| && tail[i].Parsed? && tail[i].doc.processos.Array? &&
               CaseObject(row.c) in tail[i].doc.processos.entries &&
               row.cpfConsulta == tail[i].doc.chavePesquisa &&
               row.dataConsultaRef == tail[i].doc.dataConsulta;
      assert files[i + 1] == tail[i];
    }
  }

  /** Every element of every `processos` array is a case object. */
  predicate WellFormed(files: seq<FileRead>)
  {
    forall i :: 0 <= i < |files| && files[i].Parsed? && files[i].doc.processos.Array? ==>
      forall e :: e in files[i].doc.processos.entries ==> e.CaseObject?
  }

  /** Sum of the `processos` array lengths over the decoded documents. */
  function CaseCount(files: seq<FileRead>): nat
  {
    if files == [] then 0
    else (if files[0].Parsed? && files[0].doc.processos.Array?
          then |files[0].doc.processos.entries| else 0) + CaseCount(files[1..])
  }

  /** With well-formed arrays there is one row per case object; otherwise
      never more rows than array elements. */
  lemma {:induction false} RowCount(files: seq<FileRead>)
    ensures |Flatten(files)| <= CaseCount(files)
    ensures WellFormed(files) ==> |Flatten(files)| == CaseCount(files)
  {
    if files != [] {
      RowCount(files[1..]);
      if WellFormed(files) {
        assert WellFormed(files[1..]) by {
          forall i | 0 <= i < |files[1..]| && files[1..][i].Parsed? && files[1..][i].doc.processos.Array?
            ensures forall e :: e in files[1..][i].doc.processos.entries ==> e.CaseObject?
          {
            assert files[1..][i] == files[i + 1];
          }
        }
        var f := files[0];
        if f.Parsed? && f.doc.processos.Array? {
          var es := f.doc.processos.entries;
          var rows := TagPrefix(es, f.doc);
          if |rows| < |es| {
            assert es[|rows|] in es;
          }
        }
      }
    }
  }

  lemma TallyOfOne(f: FileRead)
    ensures Tally([f]) == FileTally(f)
  {
    assert [f][1..] == [];
  }

  lemma TallyOfThree(f1: FileRead, f2: FileRead, f3: FileRead)
    ensures Tally([f1, f2, f3]) == Add(FileTally(f1), Add(FileTally(f2), FileTally(f3)))
  {
    assert [f1, f2, f3][1..] == [f2, f3] && [f2, f3][1..] == [f3];
    TallyOfOne(f3);
  }

  lemma FlattenOfOne(f: FileRead)
    ensures Flatten([f]) == FileRows(f)
  {
    assert [f][1..] == [];
  }

  lemma FlattenOfThree(f1: FileRead, f2: FileRead, f3: FileRead)
    ensures Flatten([f1, f2, f3]) == FileRows(f1) + (FileRows(f2) + FileRows(f3))
  {
    assert [f1, f2, f3][1..] == [f2, f3] && [f2, f3][1..] == [f3];
    FlattenOfOne(f3);
  }

  /** A document with a single case object yields one tagged row. */
  lemma SingleCaseFile(c: Case, cpf: string, t: string)
    ensures var f := Parsed(Document(Some(cpf), Some(t), Array([CaseObject(c)])));
            FileRows(f) == [Row(c, Some(cpf), Some(t))] && FileTally(f) == Summary(1, 1, 0)
  {
    var doc := Document(Some(cpf), Some(t), Array([CaseObject(c)]));
    assert TagPrefix([CaseObject(c)][1..], doc) == [];
  }

  /** Three documents, two with one case each and one without: three files,
      two with cases, one without, and two rows. */
  lemma ScenarioThreeDocuments(c1: Case, c2: Case, cpf1: string, cpf2: string, cpf3: string, t: string)
    ensures
      var files := [Parsed(Document(Some(cpf1), Some(t), Array([CaseObject(c1)]))),
                    Parsed(Document(Some(cpf2), Some(t), Array([CaseObject(c2)]))),
                    Parsed(Document(Some(cpf3), Some(t), Missing))];
      Tally(files) == Summary(3, 2, 1) &&
      Flatten(files) == [Row(c1, Some(cpf1), Some(t)), Row(c2, Some(cpf2), Some(t))]
  {
    var f1 := Parsed(Document(Some(cpf1), Some(t), Array([CaseObject(c1)])));
    var f2 := Parsed(Document(Some(cpf2), Some(t), Array([CaseObject(c2)])));
    var f3 := Parsed(Document(Some(cpf3), Some(t), Missing));
    SingleCaseFile(c1, cpf1, t);
    SingleCaseFile(c2, cpf2, t);
    assert FileRows(f3) == [] && FileTally(f3) == Summary(1, 0, 1);
    TallyOfThree(f1, f2, f3);
    FlattenOfThree(f1, f2, f3);
  }
}
