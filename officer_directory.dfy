/** The officer directory of `client/src/components/Profile/EnhancedProfile.jsx`:
    `filterOfficers` (search, department filter and sort), the CSV that
    `exportData` writes, and the edit form that `handleEdit` fills and
    `resetForm` clears. */
module OfficerDirectory {
  import opened Base
  import opened Json
  import opened Text

  /** `${officer.firstName || ''} ${officer.lastName || ''}`, the name the
      search looks in. */
  function SearchName(o: Doc): string {
    ToText(Or(Get(o, "firstName"), Str(""))) + " " + ToText(Or(Get(o, "lastName"), Str("")))
  }

  /** `v?.toLowerCase().includes(t)` for a field holding text; an absent
      field does not match. */
  predicate TextContains(v: Value, t: string) {
    v.Str? && Contains(Lower(v.s), t)
  }

  /** The search: the lower-cased term occurs in the lower-cased name, badge
      number or e-mail. */
  predicate MatchesTerm(o: Doc, term: string) {
    || Contains(Lower(SearchName(o)), Lower(term))
    || TextContains(Get(o, "badgeNumber"), Lower(term))
    || TextContains(Get(o, "email"), Lower(term))
  }

  function SearchTest(term: string): Doc -> bool {
    (o: Doc) => MatchesTerm(o, term)
  }

  /** The department filter: `officer.department === filterDepartment`. */
  function DepartmentTest(dept: string): Doc -> bool {
    (o: Doc) => Get(o, "department") == Str(dept)
  }

  /** The officers the two filters keep, in their order: the search only
      when a term is typed, the department filter only when one is
      chosen. */
  function Selection(officers: seq<Doc>, term: string, dept: string): (r: seq<Doc>)
    ensures forall o :: o in r <==>
      && o in officers
      && (term != "" ==> MatchesTerm(o, term))
      && (dept != "" ==> Get(o, "department") == Str(dept))
    ensures multiset(r) <= multiset(officers)
  {
    var searched := if term != "" then Filter(officers, SearchTest(term)) else officers;
    if dept != "" then Filter(searched, DepartmentTest(dept)) else searched
  }

  /** Skipping the search for an empty term changes nothing: every officer
      matches the empty term. */
  lemma {:induction false} EmptyTermMatchesAll(officers: seq<Doc>)
    ensures Filter(officers, SearchTest("")) == officers
  {
    assert Lower("") == "";
    forall i | 0 <= i < |officers| ensures SearchTest("")(officers[i]) {
      ContainsEmpty(Lower(SearchName(officers[i])));
    }
    FilterAll(officers, SearchTest(""));
  }

  /** The keys `filterOfficers` can sort by. */
  const SortKeys: set<string> := {"firstName", "lastName", "department", "position"}

  /** `(o.f || '')` as the comparator reads it: the text of the field, or
      the empty string. */
  function Key(o: Doc, f: string): string {
    StrOf(Or(Get(o, f), Str("")))
  }

  /** Ordered by field `f`, ties in any order. */
  predicate SortedOn(s: seq<Doc>, f: string) {
    forall i, j | 0 <= i < j < |s| :: LexLe(Key(s[i], f), Key(s[j], f))
  }

  /** `o` placed before the first officer of the ordered `s` whose key it
      does not exceed. */
  function Insert(o: Doc, s: seq<Doc>, f: string): (r: seq<Doc>)
    requires SortedOn(s, f)
    ensures multiset(r) == multiset(s) + multiset{o}
    ensures SortedOn(r, f)
  {
    if |s| == 0 then [o]
    else if LexLe(Key(o, f), Key(s[0], f)) then
      InsertFrontSorted(o, s, f);
      [o] + s
    else
      var rest := Insert(o, s[1..], f);
      InsertAfterSorted(o, s, rest, f);
      ConsRestored(s, rest, o);
      [s[0]] + rest
  }

  /** An officer whose key exceeds no key of an ordered list can lead it. */
  lemma SortedCons(x: Doc, s: seq<Doc>, f: string)
    requires SortedOn(s, f)
    requires forall y | y in s :: LexLe(Key(x, f), Key(y, f))
    ensures SortedOn([x] + s, f)
  {
    var r := [x] + s;
    forall i, j | 0 <= i < j < |r| ensures LexLe(Key(r[i], f), Key(r[j], f)) {
      assert r[j] == s[j - 1];
      if i == 0 {
        assert s[j - 1] in s;
      } else {
        assert r[i] == s[i - 1];
      }
    }
  }

  /** Placed in front when its key does not exceed the first one's, the
      officer exceeds none of the keys. */
  lemma InsertFrontSorted(o: Doc, s: seq<Doc>, f: string)
    requires SortedOn(s, f) && |s| > 0 && LexLe(Key(o, f), Key(s[0], f))
    ensures SortedOn([o] + s, f)
  {
    forall y | y in s ensures LexLe(Key(o, f), Key(y, f)) {
      var j :| 0 <= j < |s| && s[j] == y;
      if j > 0 {
        LexLeTrans(Key(o, f), Key(s[0], f), Key(s[j], f));
      }
    }
    SortedCons(o, s, f);
  }

  /** Placed further on, the first officer still leads: its key exceeds
      neither the placed officer's nor any of the others'. */
  lemma InsertAfterSorted(o: Doc, s: seq<Doc>, rest: seq<Doc>, f: string)
    requires SortedOn(s, f) && |s| > 0 && !LexLe(Key(o, f), Key(s[0], f))
    requires SortedOn(rest, f) && multiset(rest) == multiset(s[1..]) + multiset{o}
    ensures SortedOn([s[0]] + rest, f)
  {
    LexLeTotal(Key(o, f), Key(s[0], f));
    forall y | y in rest ensures LexLe(Key(s[0], f), Key(y, f)) {
      assert y in multiset(rest);
      if y != o {
        assert y in multiset(s[1..]);
        var k :| 0 <= k < |s[1..]| && s[1..][k] == y;
        assert s[k + 1] == y;
      }
    }
    SortedCons(s[0], rest, f);
  }

  /** `Array.prototype.sort` with the comparator of `filterOfficers` for
      key `f`: the same officers, ordered by that key. */
  function SortByKey(s: seq<Doc>, f: string): (r: seq<Doc>)
    ensures multiset(r) == multiset(s)
    ensures SortedOn(r, f)
  {
    if |s| == 0 then []
    else
      assert s == [s[0]] + s[1..];
      Insert(s[0], SortByKey(s[1..], f), f)
  }

  /** `filterOfficers`: the selection, sorted by `sortBy` when it is one of
      the four keys; for any other value the comparator ties every pair
      and the stable sort keeps the selection's order. */
  method FilterOfficers(officers: seq<Doc>, term: string, dept: string, sortBy: string) returns (r: seq<Doc>)
    ensures multiset(r) == multiset(Selection(officers, term, dept))
    ensures multiset(r) <= multiset(officers)
    ensures sortBy in SortKeys ==> SortedOn(r, sortBy)
    ensures sortBy !in SortKeys ==> r == Selection(officers, term, dept)
  {
    var filtered := officers;
    if term != "" {
      filtered := Filter(filtered, SearchTest(term));
    }
    if dept != "" {
      filtered := Filter(filtered, DepartmentTest(dept));
    }
    if sortBy in SortKeys {
      r := SortByKey(filtered, sortBy);
    } else {
      r := filtered;
    }
  }

  /** The columns of the export. */
  const Header: seq<string> :=
    ["Badge Number", "Name", "Department", "Position", "Email", "Phone", "Status", "Years of Service"]

  /** The cells of one officer's row: the fields as `join` writes them,
      and the name as the template literal writes it, so a missing name
      reads "undefined". */
  function Row(o: Doc): (r: seq<string>)
    ensures |r| == |Header|
  {
    [ JoinText(Get(o, "badgeNumber")),
      ToText(Get(o, "firstName")) + " " + ToText(Get(o, "lastName")),
      JoinText(Get(o, "department")),
      JoinText(Get(o, "position")),
      JoinText(Get(o, "email")),
      JoinText(Get(o, "phone")),
      JoinText(Get(o, "status")),
      JoinText(Get(o, "yearsOfService")) ]
  }

  /** One officer's line: the cells joined by commas. */
  function RowLine(o: Doc): string {
    Join(Row(o), ",")
  }

  /** The lines of the export: the header, then one line per officer. */
  function Lines(officers: seq<Doc>): seq<string> {
    [Join(Header, ",")] + seq(|officers|, i requires 0 <= i < |officers| => RowLine(officers[i]))
  }

  /** `exportData`'s text: each row's cells joined by commas, the rows by
      newlines. */
  function Csv(officers: seq<Doc>): string {
    Join(Lines(officers), "\n")
  }

  /** No cell of the officer's row holds a comma or a newline. */
  predicate PlainRow(o: Doc) {
    forall k | 0 <= k < |Row(o)| :: ',' !in Row(o)[k] && '\n' !in Row(o)[k]
  }

  /** No cell of any row holds a comma or a newline. */
  predicate PlainCells(officers: seq<Doc>) {
    forall i | 0 <= i < |officers| :: PlainRow(officers[i])
  }

  /** No column name holds a comma or a newline. */
  lemma HeaderPlain()
    ensures forall k | 0 <= k < |Header| :: ',' !in Header[k] && '\n' !in Header[k]
  {
  }

  /** No line of the export holds a newline when no cell does. */
  lemma LinesPlain(officers: seq<Doc>)
    requires PlainCells(officers)
    ensures forall i | 0 <= i < |Lines(officers)| :: '\n' !in Lines(officers)[i]
  {
    forall i | 0 <= i < |Lines(officers)| ensures '\n' !in Lines(officers)[i] {
      LinePlain(officers, i);
    }
  }

  /** One line of the export holds no newline when no cell does. */
  lemma LinePlain(officers: seq<Doc>, i: int)
    requires PlainCells(officers) && 0 <= i <= |officers|
    ensures '\n' !in Lines(officers)[i]
  {
    if i == 0 {
      LinesShape(officers);
      HeaderLinePlain();
    } else {
      LineAt(officers, i);
      RowLinePlain(officers[i - 1]);
    }
  }

  /** The export has one line more than there are officers, and the
      first is the header's. */
  lemma LinesShape(officers: seq<Doc>)
    ensures |Lines(officers)| == |officers| + 1
    ensures Lines(officers)[0] == Join(Header, ",")
  {
    var rows := seq(|officers|, i requires 0 <= i < |officers| => RowLine(officers[i]));
    assert Lines(officers) == [Join(Header, ",")] + rows;
  }

  /** Each line of the export after the first is an officer's. */
  lemma LineAt(officers: seq<Doc>, i: int)
    requires 0 < i <= |officers|
    ensures Lines(officers)[i] == RowLine(officers[i - 1])
  {
    var rows := seq(|officers|, i requires 0 <= i < |officers| => RowLine(officers[i]));
    assert Lines(officers) == [Join(Header, ",")] + rows;
    assert rows[i - 1] == RowLine(officers[i - 1]);
  }

  /** The header line holds no newline. */
  lemma HeaderLinePlain()
    ensures '\n' !in Join(Header, ",")
  {
    HeaderPlain();
    JoinAvoids(Header, ",", '\n');
  }

  /** The line of an officer whose cells hold no newline holds none. */
  lemma RowLinePlain(o: Doc)
    requires PlainRow(o)
    ensures '\n' !in RowLine(o)
  {
    JoinAvoids(Row(o), ",", '\n');
  }

  /** The line of an officer whose cells hold no comma splits back into
      the cells. */
  lemma RowLineReadsBack(o: Doc)
    requires PlainRow(o)
    ensures Split(RowLine(o), ',') == Row(o)
  {
    SplitJoin(Row(o), ',');
  }

  /** When no cell holds a comma or a newline, the export reads back: it
      has one line more than there are officers, the first splits into the
      header and each other into its officer's cells. */
  lemma CsvReadsBack(officers: seq<Doc>)
    requires PlainCells(officers)
    ensures |Split(Csv(officers), '\n')| == |officers| + 1
    ensures Split(Split(Csv(officers), '\n')[0], ',') == Header
    ensures forall i | 0 <= i < |officers| :: Split(Split(Csv(officers), '\n')[i + 1], ',') == Row(officers[i])
  {
    var lines := Lines(officers);
    LinesPlain(officers);
    SplitJoin(lines, '\n');
    assert Split(Csv(officers), '\n') == lines;
    HeaderPlain();
    SplitJoin(Header, ',');
    forall i | 0 <= i < |officers| ensures Split(lines[i + 1], ',') == Row(officers[i]) {
      LineAt(officers, i + 1);
      RowLineReadsBack(officers[i]);
    }
  }

  /** `exportData`: the CSV of the officers `filterOfficers` lists. */
  method ExportData(officers: seq<Doc>, term: string, dept: string, sortBy: string) returns (rows: seq<Doc>, csv: string)
    ensures multiset(rows) == multiset(Selection(officers, term, dept))
    ensures sortBy in SortKeys ==> SortedOn(rows, sortBy)
    ensures |Split(csv, '\n')| >= |rows| + 1
    ensures csv == Csv(rows)
  {
    rows := FilterOfficers(officers, term, dept, sortBy);
    csv := Csv(rows);
    LinesAtLeast(rows);
  }

  /** Whatever the cells hold, the export has at least one line per
      officer besides the header: a newline inside a cell only adds
      lines. */
  lemma LinesAtLeast(officers: seq<Doc>)
    ensures |Split(Csv(officers), '\n')| >= |officers| + 1
  {
    SplitAtLeast(Lines(officers), '\n');
  }

  /** Splitting a join gives at least as many pieces as were joined. */
  lemma {:induction false} SplitAtLeast(parts: seq<string>, sep: char)
    requires |parts| >= 1
    ensures |Split(Join(parts, [sep]), sep)| >= |parts|
    decreases |parts|
  {
    if |parts| > 1 {
      SplitAtLeast(parts[1..], sep);
      SplitCountAppend(parts[0], sep, Join(parts[1..], [sep]));
    }
  }

  /** `a + sep + b` splits into at least one piece more than `b`. */
  lemma {:induction false} SplitCountAppend(a: string, sep: char, b: string)
    ensures |Split(a + [sep] + b, sep)| >= |Split(b, sep)| + 1
    decreases |a|
  {
    if |a| == 0 {
      assert a + [sep] + b == [sep] + b;
      assert ([sep] + b)[1..] == b;
    } else {
      SplitCountAppend(a[1..], sep, b);
      assert (a + [sep] + b)[1..] == a[1..] + [sep] + b;
    }
  }

  /** The fields of the edit form. */
  const EditFields: set<string> := {
    "firstName", "lastName", "badgeNumber", "department", "position", "email", "phone",
    "address", "emergencyContact", "specialization", "yearsOfService", "status"}

  /** An empty field, or "active" for the status. */
  function EditDefault(f: string): string {
    if f == "status" then "active" else ""
  }

  /** The form `resetForm` restores: every field empty, the status
      "active". */
  const BlankForm: Doc := map f | f in EditFields :: Str(EditDefault(f))

  /** The form `handleEdit` fills from an officer: `officer.f || default`
      for each field. Every field is then truthy or its default, and the
      status is always set. */
  function EditForm(o: Doc): (r: Doc)
    ensures r.Keys == EditFields
    ensures forall f | f in r :: (Truthy(Get(o, f)) && r[f] == Get(o, f)) || (!Truthy(Get(o, f)) && r[f] == Str(EditDefault(f)))
    ensures Truthy(r["status"])
  {
    map f | f in EditFields :: Or(Get(o, f), Str(EditDefault(f)))
  }

  /** Editing what the form holds changes nothing: filling the form twice
      is filling it once, and editing the blank form gives the blank
      form. */
  lemma EditFormSettles(o: Doc)
    ensures EditForm(EditForm(o)) == EditForm(o)
    ensures EditForm(BlankForm) == BlankForm
  {
    var once := EditForm(o);
    forall f | f in EditFields ensures EditForm(once)[f] == once[f] {
      assert Get(once, f) == once[f];
    }
    forall f | f in EditFields ensures EditForm(BlankForm)[f] == BlankForm[f] {
      assert Get(BlankForm, f) == Str(EditDefault(f));
    }
  }

  /** The officer form of the profile page: what it holds, the id of the
      officer being edited (`Null` when adding one), the error banner and
      whether the form is shown. */
  class ProfileEditor {
    var formData: Doc
    var editingId: Value
    var error: string
    var showAddForm: bool

    constructor ()
      ensures formData == BlankForm && editingId == Null && error == "" && !showAddForm
    {
      formData := BlankForm;
      editingId := Null;
      error := "";
      showAddForm := false;
    }

    /** `resetForm`: the blank form, nobody being edited, no error; the form
        stays shown or hidden as it was. */
    method ResetForm()
      modifies this
      ensures formData == BlankForm && editingId == Null && error == ""
      ensures showAddForm == old(showAddForm)
    {
      formData := BlankForm;
      editingId := Null;
      error := "";
    }

    /** `handleEdit`: the form filled from the officer, its `id` being
        edited, and the form shown; the error banner is left as it was. */
    method HandleEdit(o: Doc)
      modifies this
      ensures formData == EditForm(o) && editingId == Get(o, "id") && showAddForm
      ensures error == old(error)
    {
      formData := EditForm(o);
      editingId := Get(o, "id");
      showAddForm := true;
    }
  }
}
