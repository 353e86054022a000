/** `Functions.GetGPPP`: for each candidate file, load it as XML and, when
    its text mentions `cpassword`, print the account fields of every
    `Properties` record that one of six fixed XPaths selects. Which fields
    are printed depends only on the file's own name.

    The file system and the XML parser are collaborators: `load` gives the
    parsed document of a path, or `None` when `XmlDocument.Load` throws. It
    is a function, so loading the same unchanged file twice gives the same
    result. The console output is the sequence of lines written. */
module GppExtraction {
  import opened Common
  import GppDiscovery

  /** A `Properties` element selected by an XPath: its attributes, and the
      `changed` attribute of its parent element when it has one. */
  datatype Record = Record(attributes: map<string, string>, parentChanged: Option<string>)

  /** A loaded `XmlDocument`: its `InnerXml`, and the elements
      `DocumentElement.SelectNodes` returns for each XPath (none when the
      XPath is not a key). */
  datatype XmlDoc = XmlDoc(innerXml: string, selected: map<string, seq<Record>>)

  function SelectNodes(doc: XmlDoc, xpath: string): seq<Record>
  {
    if xpath in doc.selected then doc.selected[xpath] else []
  }

  /** `gppDict`, in insertion order (the order a `Dictionary` that is only
      added to enumerates in). */
  const GppDict: seq<(string, string)> := [
    ("Groups.xml", "/Groups/User/Properties"),
    ("Services.xml", "/NTServices/NTService/Properties"),
    ("Scheduledtasks.xml", "/ScheduledTasks/Task/Properties"),
    ("Datasources.xml", "/DataSources/DataSource/Properties"),
    ("Printers.xml", "/Printers/SharedPrinter/Properties"),
    ("Drives.xml", "/Drives/Drive/Properties")
  ]

  /** What one `Console.WriteLine` of a record prints: an attribute of the
      record, the parent's `changed` attribute, or the file path. */
  datatype Field = Attribute(name: string) | ParentChanged | SourcePath

  /** One output line of a record: its prefix and the field it shows. */
  datatype Column = Column(prefix: string, field: Field)

  const GroupsColumns: seq<Column> := [
    Column("  * userName:    ", Attribute("userName")),
    Column("    newName:     ", Attribute("newName")),
    Column("    cpassword:   ", Attribute("cpassword")),
    Column("    changed:     ", ParentChanged),
    Column("    Path:        ", SourcePath)
  ]

  const ServicesColumns: seq<Column> := [
    Column("  * accountName:     ", Attribute("accountName")),
    Column("    cpassword:       ", Attribute("cpassword")),
    Column("    changed:         ", ParentChanged),
    Column("    Path:        ", SourcePath)
  ]

  const ScheduledTasksColumns: seq<Column> := [
    Column("  * runAs:       ", Attribute("runAs")),
    Column("    cpassword:   ", Attribute("cpassword")),
    Column("    changed:     ", ParentChanged),
    Column("    Path:        ", SourcePath)
  ]

  const DefaultColumns: seq<Column> := [
    Column("  * userName:    ", Attribute("userName")),
    Column("    cpassword:   ", Attribute("cpassword")),
    Column("    changed:     ", ParentChanged),
    Column("    Path:        ", SourcePath)
  ]

  /** `switch (path.Split('\\').Last())` as written: its third label is
      `"Scheduledtasks"`, without the extension. */
  function ColumnsFor(path: string): seq<Column>
  {
    var name := LastSegment(path);
    if name == "Groups.xml" then GroupsColumns
    else if name == "Services.xml" then ServicesColumns
    else if name == "Scheduledtasks" then ScheduledTasksColumns
    else DefaultColumns
  }

  /** The value a field prints, or `None` where the code dereferences a
      missing attribute and the `catch` ends the record. */
  function FieldValue(field: Field, record: Record, path: string): Option<string>
  {
    match field
    case Attribute(name) => if name in record.attributes then Some(record.attributes[name]) else None
    case ParentChanged => record.parentChanged
    case SourcePath => Some(path)
  }

  /** The `try` block of one record: its columns are printed in order until
      the first field that is missing. */
  function RecordLines(columns: seq<Column>, record: Record, path: string): seq<string>
  {
    if columns == [] then []
    else match FieldValue(columns[0].field, record, path)
      case None => []
      case Some(v) => [columns[0].prefix + v] + RecordLines(columns[1..], record, path)
  }

  /** A record prints one line per column, in column order, each the
      column's prefix followed by the field's value, and stops exactly at
      the first field that is missing. */
  lemma {:induction false} RecordLinesStopAtMissingField(columns: seq<Column>, record: Record, path: string)
    ensures var r := RecordLines(columns, record, path);
            && |r| <= |columns|
            && (forall i :: 0 <= i < |r| ==>
                  FieldValue(columns[i].field, record, path).Some?
                  && r[i] == columns[i].prefix + FieldValue(columns[i].field, record, path).value)
            && (|r| < |columns| ==> FieldValue(columns[|r|].field, record, path).None?)
  {
    if columns != [] && FieldValue(columns[0].field, record, path).Some? {
      RecordLinesStopAtMissingField(columns[1..], record, path);
    }
  }

  /** The `foreach (XmlNode node in nodes)` loop. */
  function RecordsLines(columns: seq<Column>, records: seq<Record>, path: string): seq<string>
  {
    if records == [] then []
    else RecordsLines(columns, records[..|records| - 1], path) + RecordLines(columns, records[|records| - 1], path)
  }

  /** One pass of `foreach (gppXml in gppDict)` for a loaded document,
      printing with the column set `columns`. */
  function XPathLines(doc: XmlDoc, columns: seq<Column>, path: string, xpath: string): seq<string>
  {
    if Contains(doc.innerXml, "cpassword")
    then RecordsLines(columns, SelectNodes(doc, xpath), path)
    else []
  }

  function DictLines(doc: XmlDoc, columns: seq<Column>, path: string, entries: seq<(string, string)>): seq<string>
  {
    if entries == [] then []
    else DictLines(doc, columns, path, entries[..|entries| - 1]) + XPathLines(doc, columns, path, entries[|entries| - 1].1)
  }

  /** What a loaded file prints before its trailing blank line. */
  function FileLines(doc: XmlDoc, path: string): seq<string>
  {
    DictLines(doc, ColumnsFor(path), path, GppDict)
  }

  function LoadError(path: string): string
  {
    "Error loading file " + path
  }

  /** The console lines of a run, and whether an exception escaped it. */
  datatype Report = Report(lines: seq<string>, aborted: bool)

  /** The whole of `GetGPPP(files)`. A file that does not load prints the
      error, and then the unguarded reload of line 441 throws out of the
      method, so no later file is looked at. */
  function Harvest(files: seq<string>, load: string -> Option<XmlDoc>): Report
  {
    HarvestUpTo(files, |files|, load, FileLines)
  }

  /** What a loaded file prints, given its document and path. */
  type FilePrinter = (XmlDoc, string) -> seq<string>

  /** What the first `n` files print, and whether one of them threw, when
      each loaded file prints `show(doc, path)`. */
  function HarvestUpTo(files: seq<string>, n: nat, load: string -> Option<XmlDoc>, show: FilePrinter): Report
    requires n <= |files|
  {
    if n == 0 then Report([], false)
    else
      var before := HarvestUpTo(files, n - 1, load, show);
      if before.aborted then before
      else match load(files[n - 1])
        case None => Report(before.lines + [LoadError(files[n - 1])], true)
        case Some(doc) => Report(before.lines + show(doc, files[n - 1]) + [""], false)
  }

  /** Once a file has thrown, the files after it change nothing. */
  lemma {:induction false} AbortedStays(files: seq<string>, n: nat, m: nat, load: string -> Option<XmlDoc>, show: FilePrinter)
    requires n <= m <= |files|
    requires HarvestUpTo(files, n, load, show).aborted
    ensures HarvestUpTo(files, m, load, show) == HarvestUpTo(files, n, load, show)
    decreases m
  {
    if n < m {
      AbortedStays(files, n, m - 1, load, show);
    }
  }

  /** `GetGPPP` itself: the loop over the files. */
  method GetGPPP(files: seq<string>, load: string -> Option<XmlDoc>) returns (lines: seq<string>, aborted: bool)
    ensures Report(lines, aborted) == Harvest(files, load)
  {
    lines := [];
    aborted := false;
    for i := 0 to |files|
      invariant Report(lines, false) == HarvestUpTo(files, i, load, FileLines)
    {
      var out, failed := ProcessFile(files[i], load, GppDict);
      if failed {
        lines := lines + out;
        aborted := true;
        AbortedStays(files, i + 1, |files|, load, FileLines);
        return;
      }
      lines := lines + out + [""];
    }
  }

  /** The body of the loop for one file: the guarded first load, then the
      loop over `gppDict`, which reloads the file for every XPath without a
      `try`. `failed` is the exception that the reload throws. */
  method ProcessFile(path: string, load: string -> Option<XmlDoc>, gppDict: seq<(string, string)>) returns (out: seq<string>, failed: bool)
    requires gppDict != []
    ensures load(path).None? ==> failed && out == [LoadError(path)]
    ensures load(path).Some? ==> !failed && out == DictLines(load(path).value, ColumnsFor(path), path, gppDict)
  {
    out := [];
    failed := false;
    var loaded := load(path);
    if loaded.None? {
      out := out + [LoadError(path)];
    }
    var columns := ColumnsFor(path);
    for j := 0 to |gppDict|
      invariant loaded == load(path)
      invariant loaded.None? ==> j == 0
      invariant out == if loaded.None? then [LoadError(path)] else DictLines(loaded.value, columns, path, gppDict[..j])
    {
      var doc := load(path);
      if doc.None? {
        failed := true;
        return;
      }
      var found := PrintXPath(doc.value, columns, path, gppDict[j].1);
      assert gppDict[..j + 1][..j] == gppDict[..j];
      out := out + found;
    }
    assert gppDict[..|gppDict|] == gppDict;
  }

  /** One pass of `foreach (gppXml in gppDict)` after the reload: the records
      the XPath selects, printed only when the document mentions
      `cpassword`. */
  method PrintXPath(doc: XmlDoc, columns: seq<Column>, path: string, xpath: string) returns (found: seq<string>)
    ensures found == XPathLines(doc, columns, path, xpath)
  {
    found := [];
    if Contains(doc.innerXml, "cpassword") {
      found := PrintRecords(columns, SelectNodes(doc, xpath), path);
    }
  }

  /** `foreach (XmlNode node in nodes)`: the lines of the selected records. */
  method PrintRecords(columns: seq<Column>, nodes: seq<Record>, path: string) returns (out: seq<string>)
    ensures out == RecordsLines(columns, nodes, path)
  {
    out := [];
    for k := 0 to |nodes|
      invariant out == RecordsLines(columns, nodes[..k], path)
    {
      assert nodes[..k + 1][..k] == nodes[..k];
      out := out + RecordLines(columns, nodes[k], path);
    }
    assert nodes[..|nodes|] == nodes;
  }

  // Properties of what a file prints.

  /** The records the XPaths of `entries` select, in table order. */
  function SelectedRecords(doc: XmlDoc, entries: seq<(string, string)>): seq<Record>
  {
    if entries == [] then []
    else SelectedRecords(doc, entries[..|entries| - 1]) + SelectNodes(doc, entries[|entries| - 1].1)
  }

  /** Printing records one after the other distributes over concatenation. */
  lemma {:induction false} RecordsLinesAppend(columns: seq<Column>, a: seq<Record>, b: seq<Record>, path: string)
    ensures RecordsLines(columns, a + b, path) == RecordsLines(columns, a, path) + RecordsLines(columns, b, path)
    decreases |b|
  {
    if b == [] {
      assert a + b == a;
    } else {
      assert (a + b)[..|a + b| - 1] == a + b[..|b| - 1];
      assert (a + b)[|a + b| - 1] == b[|b| - 1];
      RecordsLinesAppend(columns, a, b[..|b| - 1], path);
    }
  }

  lemma {:induction false} DictLinesAreRecordsLines(doc: XmlDoc, columns: seq<Column>, path: string, entries: seq<(string, string)>)
    ensures DictLines(doc, columns, path, entries)
         == if Contains(doc.innerXml, "cpassword") then RecordsLines(columns, SelectedRecords(doc, entries), path) else []
    decreases |entries|
  {
    if entries != [] {
      var init := entries[..|entries| - 1];
      DictLinesAreRecordsLines(doc, columns, path, init);
      if Contains(doc.innerXml, "cpassword") {
        RecordsLinesAppend(columns, SelectedRecords(doc, init), SelectNodes(doc, entries[|entries| - 1].1), path);
      }
    } else {
      assert RecordsLines(columns, [], path) == [];
    }
  }

  /** A loaded file prints nothing unless its text mentions `cpassword`;
      otherwise it prints every record any of the six XPaths selects, in
      table order, all with the one column set its name chooses. */
  lemma FileLinesUseOneColumnSet(doc: XmlDoc, path: string)
    ensures FileLines(doc, path)
         == if Contains(doc.innerXml, "cpassword") then RecordsLines(ColumnsFor(path), SelectedRecords(doc, GppDict), path) else []
  {
    DictLinesAreRecordsLines(doc, ColumnsFor(path), path, GppDict);
  }

  /** A `Groups.xml` that mentions `cpassword` and holds one user whose
      fields are all present prints that user's five lines, the stored
      password among them. */
  lemma GroupsPasswordIsPrinted(dir: string, innerXml: string, user: Record)
    requires Contains(innerXml, "cpassword")
    requires user.attributes.Keys >= {"userName", "newName", "cpassword"} && user.parentChanged.Some?
    ensures var path := dir + "\\Groups.xml";
            FileLines(XmlDoc(innerXml, map[GppDict[0].1 := [user]]), path)
            == ["  * userName:    " + user.attributes["userName"],
                "    newName:     " + user.attributes["newName"],
                "    cpassword:   " + user.attributes["cpassword"],
                "    changed:     " + user.parentChanged.value,
                "    Path:        " + path]
  {
    var path := dir + "\\Groups.xml";
    var doc := XmlDoc(innerXml, map[GppDict[0].1 := [user]]);
    assert path == dir + "\\" + "Groups.xml";
    LastSegmentOfChild(dir, "Groups.xml");
    assert ColumnsFor(path) == GroupsColumns;
    OnlyGroupsXPathSelects(doc);
    FileLinesUseOneColumnSet(doc, path);
    assert [user][..0] == [];
    assert RecordsLines(GroupsColumns, [user], path) == RecordLines(GroupsColumns, user, path);
    UserLines(user, path);
  }

  /** A document in which only the `Groups.xml` XPath selects anything
      yields exactly those records. */
  lemma OnlyGroupsXPathSelects(doc: XmlDoc)
    requires doc.selected.Keys == {GppDict[0].1}
    ensures SelectedRecords(doc, GppDict) == doc.selected[GppDict[0].1]
  {
    var users := doc.selected[GppDict[0].1];
    assert SelectedRecords(doc, GppDict[..1]) == users by {
      assert GppDict[..1][..0] == [];
    }
    assert GppDict[..2][..1] == GppDict[..1];
    assert SelectedRecords(doc, GppDict[..2]) == users;
    assert GppDict[..3][..2] == GppDict[..2];
    assert SelectedRecords(doc, GppDict[..3]) == users;
    assert GppDict[..4][..3] == GppDict[..3];
    assert SelectedRecords(doc, GppDict[..4]) == users;
    assert GppDict[..5][..4] == GppDict[..4];
    assert SelectedRecords(doc, GppDict[..5]) == users;
    assert GppDict[..6][..5] == GppDict[..5];
    assert GppDict[..6] == GppDict;
  }

  /** The lines of a `Groups.xml` user all of whose fields are present. */
  lemma UserLines(user: Record, path: string)
    requires user.attributes.Keys >= {"userName", "newName", "cpassword"} && user.parentChanged.Some?
    ensures RecordLines(GroupsColumns, user, path)
         == ["  * userName:    " + user.attributes["userName"],
             "    newName:     " + user.attributes["newName"],
             "    cpassword:   " + user.attributes["cpassword"],
             "    changed:     " + user.parentChanged.value,
             "    Path:        " + path]
  {
    RecordLinesStopAtMissingField(GroupsColumns, user, path);
    var r := RecordLines(GroupsColumns, user, path);
    forall i | 0 <= i < |GroupsColumns|
      ensures FieldValue(GroupsColumns[i].field, user, path).Some?
    {
    }
  }

  /** The run throws if and only if one of the files looked at does not
      load. */
  lemma {:induction false} AbortsIffLoadFails(files: seq<string>, n: nat, load: string -> Option<XmlDoc>, show: FilePrinter)
    requires n <= |files|
    ensures HarvestUpTo(files, n, load, show).aborted <==> exists j :: 0 <= j < n && load(files[j]).None?
  {
    if n > 0 {
      AbortsIffLoadFails(files, n - 1, load, show);
    }
  }

  /** The first file that does not load ends the run: what the files before
      it printed, its error line, and nothing after. */
  lemma LoadFailureAborts(files: seq<string>, i: nat, load: string -> Option<XmlDoc>)
    requires i < |files|
    requires forall j :: 0 <= j < i ==> load(files[j]).Some?
    requires load(files[i]).None?
    ensures Harvest(files, load) == Report(HarvestUpTo(files, i, load, FileLines).lines + [LoadError(files[i])], true)
  {
    AbortsIffLoadFails(files, i, load, FileLines);
    AbortedStays(files, i + 1, |files|, load, FileLines);
  }

  /** A file named `Scheduledtasks.xml` never reaches the `runAs` case: it
      gets the default column set, so a task record, which has no
      `userName`, prints nothing at all. */
  lemma ScheduledTaskAccountIsNotPrinted(dir: string, record: Record)
    requires "userName" !in record.attributes
    ensures var path := dir + "\\Scheduledtasks.xml";
            && ColumnsFor(path) == DefaultColumns
            && RecordLines(ColumnsFor(path), record, path) == []
  {
    assert dir + "\\Scheduledtasks.xml" == dir + "\\" + "Scheduledtasks.xml";
    LastSegmentOfChild(dir, "Scheduledtasks.xml");
  }

  /** The `runAs` column set is chosen exactly for paths whose last segment
      is the bare `Scheduledtasks`. */
  lemma RunAsColumnsOnlyForBareName(path: string)
    ensures ColumnsFor(path) == ScheduledTasksColumns <==> LastSegment(path) == "Scheduledtasks"
  {
    assert GroupsColumns != ScheduledTasksColumns by {
      assert |GroupsColumns| != |ScheduledTasksColumns|;
    }
    assert ServicesColumns != ScheduledTasksColumns by {
      assert ServicesColumns[0] != ScheduledTasksColumns[0];
    }
    assert DefaultColumns != ScheduledTasksColumns by {
      assert DefaultColumns[0] != ScheduledTasksColumns[0];
    }
  }

  // The evidently intended behaviour.

  /** The switch with its third label written `"Scheduledtasks.xml"`, as
      the file list and the XPath table spell it. */
  function ColumnsForIntended(path: string): seq<Column>
  {
    var name := LastSegment(path);
    if name == "Groups.xml" then GroupsColumns
    else if name == "Services.xml" then ServicesColumns
    else if name == "Scheduledtasks.xml" then ScheduledTasksColumns
    else DefaultColumns
  }

  /** With the intended label, a `Scheduledtasks.xml` file prints the task's
      `runAs` account first. */
  lemma IntendedScheduledTasksColumns(dir: string, record: Record)
    requires "runAs" in record.attributes
    ensures var path := dir + "\\Scheduledtasks.xml";
            var r := RecordLines(ColumnsForIntended(path), record, path);
            && ColumnsForIntended(path) == ScheduledTasksColumns
            && |r| > 0 && r[0] == "  * runAs:       " + record.attributes["runAs"]
  {
    assert dir + "\\Scheduledtasks.xml" == dir + "\\" + "Scheduledtasks.xml";
    LastSegmentOfChild(dir, "Scheduledtasks.xml");
  }

  /** The intended switch differs from the written one only for the two
      spellings of the task file name. */
  lemma IntendedColumnsAgreeElsewhere(path: string)
    requires LastSegment(path) != "Scheduledtasks" && LastSegment(path) != "Scheduledtasks.xml"
    ensures ColumnsForIntended(path) == ColumnsFor(path)
  {
  }

  function FileLinesIntended(doc: XmlDoc, path: string): seq<string>
  {
    DictLines(doc, ColumnsForIntended(path), path, GppDict)
  }

  /** The evidently intended `GetGPPP`: the `catch` of the first load goes
      on with the next file instead of falling through to an unguarded
      reload, and the switch has the intended labels. */
  function HarvestIntended(files: seq<string>, load: string -> Option<XmlDoc>): seq<string>
  {
    HarvestSkipping(files, load, FileLinesIntended)
  }

  /** What `files` print when a file that does not load is reported and
      skipped. */
  function HarvestSkipping(files: seq<string>, load: string -> Option<XmlDoc>, show: FilePrinter): seq<string>
  {
    if files == [] then []
    else
      var last := files[|files| - 1];
      HarvestSkipping(files[..|files| - 1], load, show)
        + match load(last)
          case None => [LoadError(last)]
          case Some(doc) => show(doc, last) + [""]
  }

  /** Every file is reported on its own: what a list prints is what its
      parts print, so a file that does not load hides nothing after it. */
  lemma {:induction false} HarvestSkippingAppend(a: seq<string>, b: seq<string>, load: string -> Option<XmlDoc>, show: FilePrinter)
    ensures HarvestSkipping(a + b, load, show) == HarvestSkipping(a, load, show) + HarvestSkipping(b, load, show)
    decreases |b|
  {
    if b == [] {
      assert a + b == a;
    } else {
      assert (a + b)[..|a + b| - 1] == a + b[..|b| - 1];
      assert (a + b)[|a + b| - 1] == b[|b| - 1];
      HarvestSkippingAppend(a, b[..|b| - 1], load, show);
    }
  }

  /** While every file loads, skipping and aborting print the same, as long
      as the two printers agree on those files. */
  lemma {:induction false} SkippingAgreesWhileFilesLoad(files: seq<string>, n: nat, load: string -> Option<XmlDoc>, p1: FilePrinter, p2: FilePrinter)
    requires n <= |files|
    requires forall j :: 0 <= j < n ==> load(files[j]).Some? && p1(load(files[j]).value, files[j]) == p2(load(files[j]).value, files[j])
    ensures HarvestUpTo(files, n, load, p1) == Report(HarvestSkipping(files[..n], load, p2), false)
  {
    if n > 0 {
      SkippingAgreesWhileFilesLoad(files, n - 1, load, p1, p2);
      assert files[..n][..n - 1] == files[..n - 1];
    }
  }

  /** While every file loads and none is a task file, the written and the
      intended method print the same. */
  lemma IntendedAgreesWhileFilesLoad(files: seq<string>, load: string -> Option<XmlDoc>)
    requires forall j :: 0 <= j < |files| ==> load(files[j]).Some?
    requires forall j :: 0 <= j < |files| ==> LastSegment(files[j]) != "Scheduledtasks" && LastSegment(files[j]) != "Scheduledtasks.xml"
    ensures Harvest(files, load) == Report(HarvestIntended(files, load), false)
  {
    forall j | 0 <= j < |files|
      ensures FileLines(load(files[j]).value, files[j]) == FileLinesIntended(load(files[j]).value, files[j])
    {
      IntendedColumnsAgreeElsewhere(files[j]);
    }
    SkippingAgreesWhileFilesLoad(files, |files|, load, FileLines, FileLinesIntended);
    assert files[..|files|] == files;
  }
}
