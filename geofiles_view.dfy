/** The logic of the geofiles page (`client/src/components/Geofiles/Geofiles.jsx`):
    how sizes and tags are shown, the query string of the list request,
    which view the back button leads to, and the creation form's file
    check and validation. */
module GeofilesView {
  import opened Base
  import opened Json
  import opened Text
  import GeofileStore

  // ------------------------------------------------------------ file size

  /** `Math.round(n / d)`: rounding half up, for an even divisor. */
  function RoundDiv(n: int, d: int): (r: int)
    requires d > 0 && d % 2 == 0
    ensures r * d - d / 2 <= n < r * d + d / 2
  {
    (n + d / 2) / d
  }

  /** `formatFileSize(bytes)`; an absent size is `None`. */
  function FormatFileSize(bytes: Option<int>): string {
    match bytes
    case None => "Unknown size"
    case Some(n) =>
      if n == 0 then "Unknown size"
      else if n < 1024 then IntToString(n) + " B"
      else if n < 1048576 then IntToString(RoundDiv(n, 1024)) + " KB"
      else IntToString(RoundDiv(n, 1048576)) + " MB"
  }

  /** A size is unknown exactly when absent or zero. Otherwise it is shown
      in the unit its range calls for, as the nearest whole number of that
      unit: bytes below 1 KiB, 1 to 1024 KB below 1 MiB, and at least 1 MB
      above. */
  lemma FileSizeUnits(bytes: Option<int>)
    ensures FormatFileSize(bytes) == "Unknown size" <==> bytes == None || bytes == Some(0)
    ensures bytes.Some? && bytes.value != 0 && bytes.value < 1024 ==>
      FormatFileSize(bytes) == IntToString(bytes.value) + " B"
    ensures bytes.Some? && 1024 <= bytes.value < 1048576 ==>
      exists k | 1 <= k <= 1024 && k * 1024 - 512 <= bytes.value < k * 1024 + 512 ::
        FormatFileSize(bytes) == IntToString(k) + " KB"
    ensures bytes.Some? && 1048576 <= bytes.value ==>
      exists k | 1 <= k && k * 1048576 - 524288 <= bytes.value < k * 1048576 + 524288 ::
        FormatFileSize(bytes) == IntToString(k) + " MB"
  {
    if bytes.Some? && bytes.value != 0 {
      var n := bytes.value;
      var s := FormatFileSize(bytes);
      if n < 1024 {
        assert |s| > 0 && s[|s| - 1] == 'B';
        assert s != "Unknown size";
      } else if n < 1048576 {
        var k := RoundDiv(n, 1024);
        assert s == IntToString(k) + " KB";
        assert s[|s| - 1] == 'B' && s[|s| - 2] == 'K';
      } else {
        var k := RoundDiv(n, 1048576);
        assert s == IntToString(k) + " MB";
        assert s[|s| - 1] == 'B' && s[|s| - 2] == 'M';
      }
    }
  }

  // --------------------------------------------------------- access badge

  /** The access levels that have a badge style of their own. */
  const StyledLevels: set<string> := {"public", "department", "internal"}

  /** `getAccessLevelBadgeClass(level)`: the switch on `level?.toLowerCase()`.
      A level that is not text has no style of its own. */
  function AccessLevelBadgeClass(level: Value): string {
    if level.Str? && Lower(level.s) == "public" then "access-badge public"
    else if level.Str? && Lower(level.s) == "department" then "access-badge department"
    else if level.Str? && Lower(level.s) == "internal" then "access-badge internal"
    else "access-badge"
  }

  /** The badge always carries the base class, followed by the lower-cased
      level exactly when that is one of the styled levels; so the class
      does not depend on how the level is capitalised. */
  lemma AccessBadgeNamesLevel(level: Value)
    ensures level.Str? && Lower(level.s) in StyledLevels ==>
      AccessLevelBadgeClass(level) == "access-badge " + Lower(level.s)
    ensures !(level.Str? && Lower(level.s) in StyledLevels) ==>
      AccessLevelBadgeClass(level) == "access-badge"
  {
  }

  /** Two spellings of a level that differ only in case get the same
      badge. */
  lemma AccessBadgeIgnoresCase(a: string, b: string)
    requires Lower(a) == Lower(b)
    ensures AccessLevelBadgeClass(Str(a)) == AccessLevelBadgeClass(Str(b))
  {
  }

  // ----------------------------------------------------------------- tags

  /** `formatTags(tags)`: the stored tags are JSON text; text that does not
      parse, or is missing, shows no tags. */
  function FormatTags(tags: Value, parse: GeofileStore.Parser): seq<Value> {
    if !Truthy(tags) then []
    else match parse(tags)
      case Some(Arr(items)) => items
      case _ => []
  }

  /** What a geofile card shows of its tags: the first three, and "+k" for
      the k others. */
  datatype TagBadges = TagBadges(shown: seq<Value>, more: Option<string>)

  function Badges(tags: seq<Value>): TagBadges {
    TagBadges(tags[..Min(3, |tags|)],
      if |tags| > 3 then Some("+" + IntToString(|tags| - 3)) else None)
  }

  /** A card never shows more than three tags; the shown ones are the
      first tags in order, and the "+k" badge appears exactly when some are
      hidden, with k the number hidden. */
  lemma BadgesCoverTags(tags: seq<Value>)
    ensures var b := Badges(tags);
      && |b.shown| <= 3
      && b.shown + tags[|b.shown|..] == tags
      && (b.more.Some? <==> |b.shown| < |tags|)
      && (b.more.Some? ==> b.more.value == "+" + NatToString(|tags| - |b.shown|))
      && (b.more.Some? ==> ParseDigits(b.more.value[1..]) == |tags| - |b.shown|)
  {
    var b := Badges(tags);
    if |tags| > 3 {
      ParseNatToString(|tags| - 3);
      assert b.more.value[1..] == NatToString(|tags| - 3);
    }
  }

  // --------------------------------------------------------- list request

  /** The filters of the list. */
  datatype ListFilters = ListFilters(search: string, fileType: string, accessLevel: string,
                                     tags: string, dateFrom: string, dateTo: string)

  /** The query parameters, in the order the page appends them. */
  datatype Param = Search | FileType | AccessLevel | Tags | DateFrom | DateTo {
    function Name(): string {
      match this
      case Search => "search"
      case FileType => "fileType"
      case AccessLevel => "accessLevel"
      case Tags => "tags"
      case DateFrom => "dateFrom"
      case DateTo => "dateTo"
    }

    function Rank(): nat {
      match this
      case Search => 0
      case FileType => 1
      case AccessLevel => 2
      case Tags => 3
      case DateFrom => 4
      case DateTo => 5
    }
  }

  /** The filter a query parameter carries. */
  function FilterValue(f: ListFilters, p: Param): string {
    match p
    case Search => f.search
    case FileType => f.fileType
    case AccessLevel => f.accessLevel
    case Tags => f.tags
    case DateFrom => f.dateFrom
    case DateTo => f.dateTo
  }

  function Params(query: seq<(Param, string)>): seq<Param> {
    seq(|query|, i requires 0 <= i < |query| => query[i].0)
  }

  /** `query` holds exactly the non-empty filters among the first `k`
      parameters, each carrying its filter, in order. */
  ghost predicate QueryUpTo(f: ListFilters, query: seq<(Param, string)>, k: int) {
    && (forall i | 0 <= i < |query| :: query[i].0.Rank() < k && query[i].1 == FilterValue(f, query[i].0))
    && (forall p: Param | p.Rank() < k :: (FilterValue(f, p) != "" <==> p in Params(query)))
    && (forall i, j | 0 <= i < j < |query| :: query[i].0.Rank() < query[j].0.Rank())
  }

  /** `params.append(name, value)` */
  function Append(query: seq<(Param, string)>, p: Param, value: string): (r: seq<(Param, string)>)
    ensures Params(r) == Params(query) + [p]
  {
    query + [(p, value)]
  }

  /** `if (value) params.append(name, value)` */
  function AppendIfSet(query: seq<(Param, string)>, p: Param, value: string): seq<(Param, string)> {
    if value != "" then Append(query, p, value) else query
  }

  /** One step of the query: the parameters so far stay, the next one is
      added exactly when its filter is set. */
  lemma QueryStep(f: ListFilters, query: seq<(Param, string)>, p: Param)
    requires QueryUpTo(f, query, p.Rank())
    ensures QueryUpTo(f, AppendIfSet(query, p, FilterValue(f, p)), p.Rank() + 1)
  {
    var next := AppendIfSet(query, p, FilterValue(f, p));
    forall other: Param | other.Rank() < p.Rank() + 1
      ensures FilterValue(f, other) != "" <==> other in Params(next)
    {
      if other.Rank() != p.Rank() {
        assert other != p;
      }
    }
  }

  /** The `URLSearchParams` of `fetchGeofiles`: one parameter per
      non-empty filter, carrying it, in a fixed order. */
  method BuildQuery(f: ListFilters) returns (query: seq<(Param, string)>)
    ensures forall i | 0 <= i < |query| :: query[i].1 == FilterValue(f, query[i].0) && query[i].1 != ""
    ensures forall p: Param :: FilterValue(f, p) != "" <==> p in Params(query)
    ensures forall i, j | 0 <= i < j < |query| :: query[i].0.Rank() < query[j].0.Rank()
  {
    query := [];
    QueryStep(f, query, Search);
    query := AppendIfSet(query, Search, f.search);
    QueryStep(f, query, FileType);
    query := AppendIfSet(query, FileType, f.fileType);
    QueryStep(f, query, AccessLevel);
    query := AppendIfSet(query, AccessLevel, f.accessLevel);
    QueryStep(f, query, Tags);
    query := AppendIfSet(query, Tags, f.tags);
    QueryStep(f, query, DateFrom);
    query := AppendIfSet(query, DateFrom, f.dateFrom);
    QueryStep(f, query, DateTo);
    query := AppendIfSet(query, DateTo, f.dateTo);
    QueryComplete(f, query);
  }

  /** A query holding every parameter's filter when set holds exactly the
      set filters. */
  lemma QueryComplete(f: ListFilters, query: seq<(Param, string)>)
    requires QueryUpTo(f, query, 6)
    ensures forall i | 0 <= i < |query| :: query[i].1 == FilterValue(f, query[i].0) && query[i].1 != ""
    ensures forall p: Param :: FilterValue(f, p) != "" <==> p in Params(query)
    ensures forall i, j | 0 <= i < j < |query| :: query[i].0.Rank() < query[j].0.Rank()
  {
    forall i | 0 <= i < |query| ensures query[i].1 != "" {
      assert Params(query)[i] == query[i].0;
    }
  }

  function Pairs(query: seq<(Param, string)>): seq<string> {
    seq(|query|, i requires 0 <= i < |query| => query[i].0.Name() + "=" + query[i].1)
  }

  /** The request URL: a query string only when some filter is set. */
  function ListUrl(query: seq<(Param, string)>): (url: string)
    ensures StartsWith(url, "/api/geofiles")
  {
    "/api/geofiles" + (if query == [] then "" else "?" + Join(Pairs(query), "&"))
  }

  lemma ListUrlBare(query: seq<(Param, string)>)
    ensures ListUrl(query) == "/api/geofiles" <==> query == []
  {
    if query != [] {
      assert |ListUrl(query)| > |"/api/geofiles"|;
    }
  }

  // ---------------------------------------------------------- navigation

  datatype View = ListView | CreateView | DetailView | EditView | MapView

  /** The page's view and its selections. */
  datatype Screen = Screen(view: View, geofile: Option<Id>, vehicle: Option<Id>)

  type Id = string

  /** The screen `goBack` leads to. */
  function Back(s: Screen): Screen {
    Screen(
      if s.view == EditView then DetailView else ListView,
      if s.view == CreateView then None else s.geofile,
      if s.view == MapView then None else s.vehicle)
  }

  /** Going back twice always reaches the list, and once unless the page
      was editing, where it returns to the details of the same geofile. */
  lemma {:induction false} BackReachesList(s: Screen)
    ensures Back(Back(s)).view == ListView
    ensures Back(s).view == ListView <==> s.view != EditView
    ensures s.view == EditView ==> Back(s) == s.(view := DetailView)
    ensures Back(s).vehicle.Some? ==> s.view != MapView
    ensures Back(s).geofile.Some? ==> s.view != CreateView
  {
  }

  /** The state of the page. */
  class GeofilesPage {
    var view: View
    var geofile: Option<Id>
    var vehicle: Option<Id>

    function Current(): Screen
      reads this
    {
      Screen(view, geofile, vehicle)
    }

    constructor ()
      ensures Current() == Screen(ListView, None, None)
    {
      view := ListView;
      geofile := None;
      vehicle := None;
    }

    /** `navigateToView(v, g)` */
    method NavigateTo(v: View, g: Option<Id>)
      modifies this
      ensures Current() == Screen(v, g, old(vehicle))
    {
      view := v;
      geofile := g;
    }

    /** `handleVehicleSelect(v)` */
    method SelectVehicle(v: Id)
      modifies this
      ensures Current() == old(Current()).(vehicle := Some(v))
    {
      vehicle := Some(v);
    }

    /** `goBack()`: the view first, then the selection of a creation is
        dropped. */
    method GoBack()
      modifies this
      ensures Current() == Back(old(Current()))
    {
      var was := view;
      if view == DetailView {
        view := ListView;
      } else if view == EditView {
        view := DetailView;
      } else if view == MapView {
        view := ListView;
        vehicle := None;
      } else {
        view := ListView;
      }
      if was == CreateView {
        geofile := None;
      }
    }
  }

  // ----------------------------------------------------------- file check

  const AllowedExtensions: seq<string> := [".shp", ".kml", ".geojson", ".csv"]

  /** The message a refused file shows. */
  const InvalidFileMessage: string := "Invalid file type. Please upload " + Join(AllowedExtensions, ", ") + " files only."

  /** The position of the last '.' of `s`. */
  function LastDot(s: string): (r: Option<nat>)
    ensures r.Some? ==> r.value < |s| && s[r.value] == '.' && '.' !in s[r.value + 1..]
    ensures r.None? ==> '.' !in s
  {
    if |s| == 0 then None
    else match LastDot(s[1..])
      case Some(j) => Some(j + 1)
      case None =>
        assert forall c | c in s :: c == s[0] || c in s[1..];
        if s[0] == '.' then Some(0) else None
  }

  /** `name.split('.').pop()` */
  function LastPiece(name: string): string {
    var pieces := Split(name, '.');
    pieces[|pieces| - 1]
  }

  /** `'.' + name.split('.').pop().toLowerCase()` */
  function Extension(name: string): string {
    "." + Lower(LastPiece(name))
  }

  /** `name.replace(/\.[^/.]+$/, "")`: a final '.' and the characters
      after it are dropped when there is at least one and none is '/'. */
  function Stem(name: string): string {
    match LastDot(name)
    case None => name
    case Some(i) => if i + 1 < |name| && '/' !in name[i + 1..] then name[..i] else name
  }

  /** Splitting `s` on '.': its last piece is the last piece of `s[1..]`
      when `s` starts with a '.' or has one further on, and `s` itself
      when it has none. */
  lemma LastPieceStep(s: string)
    requires |s| > 0
    ensures s[0] == '.' || '.' in s[1..] ==> LastPiece(s) == LastPiece(s[1..])
    ensures s[0] != '.' && '.' !in s[1..] ==> LastPiece(s) == s
  {
    var t := s[1..];
    var rest := Split(t, '.');
    if s[0] == '.' {
      assert Split(s, '.') == [""] + rest;
    } else {
      assert Split(s, '.') == [[s[0]] + rest[0]] + rest[1..];
      JoinSplit(t, '.');
      if '.' !in t {
        SplitNoSeparator(t, '.');
        assert [s[0]] + t == s;
      }
    }
  }

  /** The last piece of the split is what follows the last '.', or the
      whole name when it has none. */
  lemma {:induction false} LastPieceAfterLastDot(s: string)
    ensures LastPiece(s) == match LastDot(s) case None => s case Some(i) => s[i + 1..]
  {
    if |s| > 0 {
      var t := s[1..];
      LastPieceAfterLastDot(t);
      LastPieceStep(s);
      match LastDot(t)
      case Some(j) =>
        assert t[j] in t;
        assert LastDot(s) == Some(j + 1);
        assert s[j + 2..] == t[j + 1..];
      case None =>
        if s[0] == '.' {
          assert LastDot(s) == Some(0);
        } else {
          assert LastDot(s).None?;
        }
    }
  }

  lemma LowerKeepsSlash(p: string)
    requires '/' in p
    ensures '/' in Lower(p)
  {
    var i :| 0 <= i < |p| && p[i] == '/';
    assert Lower(p)[i] == '/';
  }

  /** An allowed extension is not empty and holds no '/'. */
  lemma AllowedPieceClean(p: string)
    requires "." + Lower(p) in AllowedExtensions
    ensures |p| > 0 && '/' !in p
  {
    var e := "." + Lower(p);
    assert e[1..] == Lower(p);
    assert |e| >= 4 && '/' !in e by {
      assert e == ".shp" || e == ".kml" || e == ".geojson" || e == ".csv";
    }
    if '/' in p {
      LowerKeepsSlash(p);
    }
  }

  /** A file passes the check exactly when the text after its last '.'
      (or its whole name, when it has none) is one of the allowed
      extensions in any case. A passing name with a '.' is its stem, a '.'
      and that extension; a passing name without one, such as "kml", is
      kept whole as its own stem. */
  lemma AcceptedNameParts(name: string)
    requires Extension(name) in AllowedExtensions
    ensures '.' in name ==> name == Stem(name) + "." + LastPiece(name)
    ensures '.' !in name ==> Stem(name) == name && LastPiece(name) == name
  {
    LastPieceAfterLastDot(name);
    AllowedPieceClean(LastPiece(name));
    match LastDot(name)
    case None =>
    case Some(i) =>
      assert name == name[..i] + "." + name[i + 1..];
  }

  /** A file: its name and size in bytes. */
  datatype File = File(name: string, size: int)

  /** The creation form's text fields at first. The form's one boolean
      field, `isPublic` (false at first), is left out of this map of text:
      only the submission reads it, and the submission is not part of this
      model. */
  const InitialGeofileForm: map<string, string> := map[
    "name" := "", "description" := "", "tags" := "", "fileType" := "SHP",
    "coordinateSystem" := "WGS84", "accessLevel" := "internal",
    "caseId" := "", "obId" := "", "evidenceId" := ""]

  /** `!formData.name || !formData.name.trim()` */
  predicate NameBlank(form: map<string, string>) {
    "name" !in form || AllSpace(form["name"])
  }

  /** The creation form: its fields, its error messages and the chosen
      file. */
  class GeofileForm {
    var form: map<string, string>
    var errors: map<string, string>
    var file: Option<File>

    constructor ()
      ensures form == InitialGeofileForm && errors == map[] && file == None
    {
      form := InitialGeofileForm;
      errors := map[];
      file := None;
    }

    /** `handleFileChange`: no file changes nothing; a file with another
        extension replaces every error by the file error; an accepted file
        is selected, names the record when it has no name yet, sets the
        type to the extension in upper case, and clears a file error. */
    method HandleFileChange(chosen: Option<File>)
      modifies this
      ensures chosen.None? ==> form == old(form) && errors == old(errors) && file == old(file)
      ensures chosen.Some? && Extension(chosen.value.name) !in AllowedExtensions ==>
        errors == map["file" := InvalidFileMessage] && form == old(form) && file == old(file)
      ensures chosen.Some? && Extension(chosen.value.name) in AllowedExtensions ==>
        var name := chosen.value.name;
        && file == chosen
        && form == old(form)[
             "name" := (if "name" in old(form) && old(form)["name"] != "" then old(form)["name"] else Stem(name))][
             "fileType" := Upper(Lower(LastPiece(name)))]
        && errors == (if "file" in old(errors) && old(errors)["file"] != "" then old(errors)["file" := ""] else old(errors))
    {
      if chosen.None? {
        return;
      }
      var name := chosen.value.name;
      var extension := Extension(name);
      if extension !in AllowedExtensions {
        errors := map["file" := InvalidFileMessage];
        return;
      }
      file := chosen;
      var title := if "name" in form && form["name"] != "" then form["name"] else Stem(name);
      form := form["name" := title]["fileType" := Upper(extension[1..])];
      if "file" in errors && errors["file"] != "" {
        errors := errors["file" := ""];
      }
    }

    /** `handleInputChange`: the field takes the value typed, an error shown
        for that field is cleared, and the chosen file stays. */
    method HandleInputChange(name: string, value: string)
      modifies this`form, this`errors
      ensures form == old(form)[name := value]
      ensures errors.Keys == old(errors).Keys
      ensures forall k | k in errors :: errors[k] == if k == name then "" else old(errors)[k]
    {
      form := form[name := value];
      if name in errors && errors[name] != "" {
        errors := errors[name := ""];
      }
    }

    /** `validateForm`: the errors are rebuilt from scratch; the form is
        valid exactly when it has a name that is not blank and a file. */
    method ValidateForm() returns (valid: bool)
      modifies this
      ensures form == old(form) && file == old(file)
      ensures "name" in errors <==> NameBlank(form)
      ensures "file" in errors <==> file.None?
      ensures errors.Keys <= {"name", "file"}
      ensures valid <==> errors == map[]
      ensures valid <==> !NameBlank(form) && file.Some?
    {
      var newErrors: map<string, string> := map[];
      if NameBlank(form) {
        newErrors := newErrors["name" := "Name/Label is required"];
      }
      if file.None? {
        newErrors := newErrors["file" := "Please upload a geofile"];
      }
      errors := newErrors;
      valid := |newErrors.Keys| == 0;
    }
  }
}
