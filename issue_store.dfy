/**
 * The server side of the civic-issue reporter: an in-memory table of issue
 * records and a counter that hands out ids (app.py).  The table and the
 * counter are module-level globals in the original; here they are the two
 * fields of one `IssueStore` object, created empty with the counter at 1.
 *
 * Request payloads are JSON objects; the text fields the handlers read are
 * modelled as a `map<string, string>` (a missing key is a missing field).
 * The wall clock is a parameter: `date` and `stamp` are the already
 * formatted "%Y-%m-%d" and "%Y-%m-%d %H:%M" strings of the moment of the call.
 */
module IssueStore {
  import opened Wrappers
  import opened Sequences

  const REPORTED: string := "Reported"
  /** The filter value that selects every status. */
  const ALL: string := "All"

  /** One line of an issue's history: "<stamp> - <status>". */
  datatype HistoryEntry = HistoryEntry(stamp: string, status: string)

  datatype Issue = Issue(
    id: nat,
    title: string,
    description: string,
    status: string,
    lat: real,
    lng: real,
    photo: string,
    date: string,
    history: seq<HistoryEntry>)

  /** `data.get(key, "")`: the field's text, or the empty string when the key is absent. */
  function FieldOr(data: map<string, string>, key: string): (r: string)
    ensures key !in data ==> r == []
    ensures key in data ==> r == data[key]
  {
    if key in data then data[key] else ""
  }

  /**
   * A JSON value as `request.get_json()` decodes it.  Arrays and objects are
   * represented by their size only: that is all `or` and `float` look at.
   */
  datatype JsonValue = Null | Bool(b: bool) | Number(x: real) | Text(s: string) | Array(length: nat) | Object(size: nat)

  /** Python truthiness: `None`, `False`, `0`, `""`, `[]` and `{}` are false. */
  predicate IsFalsy(v: JsonValue)
  {
    v == Null || v == Bool(false) || v == Number(0.0) || v == Text("") || v == Array(0) || v == Object(0)
  }

  /** `data.get("lat", 0) or 0`: an absent or falsy coordinate becomes 0, any other value is kept. */
  function CoordinateOrZero(v: Option<JsonValue>): (r: JsonValue)
    ensures v.None? ==> r == Number(0.0)
    ensures v.Some? && IsFalsy(v.value) ==> r == Number(0.0)
    ensures v.Some? && !IsFalsy(v.value) ==> r == v.value
    ensures IsFalsy(r) ==> r == Number(0.0)
  {
    if v.None? || IsFalsy(v.value) then Number(0.0) else v.value
  }

  /**
   * Python's `float(v)`, `None` standing for the exception it raises: a
   * number as it is, a boolean as 0 or 1, a text through `parseFloat` (the
   * rules of Python's float literal syntax, `None` for a `ValueError`), and a
   * `TypeError` for `None`, lists and dicts.
   */
  function PyFloat(v: JsonValue, parseFloat: string -> Option<real>): Option<real>
  {
    match v
    case Number(x) => Some(x)
    case Bool(b) => Some(if b then 1.0 else 0.0)
    case Text(s) => parseFloat(s)
    case _ => None
  }

  /**
   * `float(data.get("lat", 0) or 0)`: a missing or falsy coordinate is 0.0,
   * and the conversion fails only on a non-empty text that is not a float
   * literal or on a non-empty list or dict; `null` never reaches `float`.
   */
  lemma CoordinateConversion(v: Option<JsonValue>, parseFloat: string -> Option<real>)
    ensures v.None? || IsFalsy(v.value) ==> PyFloat(CoordinateOrZero(v), parseFloat) == Some(0.0)
    ensures PyFloat(CoordinateOrZero(v), parseFloat).None? <==>
      v.Some? && match v.value
        case Text(s) => s != "" && parseFloat(s).None?
        case Array(n) => n > 0
        case Object(n) => n > 0
        case _ => false
  {
  }

  /**
   * The record a POST creates, given the id it receives and the payload's
   * "lat" and "lng" entries; `None` when `float` raises on a coordinate.
   */
  function NewIssue(id: nat, data: map<string, string>, lat: Option<JsonValue>, lng: Option<JsonValue>,
                    parseFloat: string -> Option<real>, date: string, stamp: string): (r: Option<Issue>)
    ensures r.None? <==> PyFloat(CoordinateOrZero(lat), parseFloat).None? || PyFloat(CoordinateOrZero(lng), parseFloat).None?
    ensures r.Some? ==> var issue := r.value;
      && issue.id == id
      && issue.status == REPORTED && issue.history == [HistoryEntry(stamp, REPORTED)]
      && issue.title == FieldOr(data, "title") && issue.description == FieldOr(data, "description")
      && issue.photo == FieldOr(data, "photo") && issue.date == date
      && Some(issue.lat) == PyFloat(CoordinateOrZero(lat), parseFloat)
      && Some(issue.lng) == PyFloat(CoordinateOrZero(lng), parseFloat)
  {
    match (PyFloat(CoordinateOrZero(lat), parseFloat), PyFloat(CoordinateOrZero(lng), parseFloat))
    case (Some(x), Some(y)) =>
      Some(Issue(id, FieldOr(data, "title"), FieldOr(data, "description"), REPORTED,
                 x, y, FieldOr(data, "photo"), date, [HistoryEntry(stamp, REPORTED)]))
    case _ => None
  }

  // ---------------------------------------------------------------- the id invariant

  /** Ids strictly increase along the table. */
  ghost predicate IdsIncreasing(s: seq<Issue>)
  {
    forall i, j :: 0 <= i < j < |s| ==> s[i].id < s[j].id
  }

  /** Every stored id is below the counter, i.e. was handed out before. */
  ghost predicate IdsBelow(s: seq<Issue>, counter: nat)
  {
    forall i :: 0 <= i < |s| ==> s[i].id < counter
  }

  /** Increasing ids are in particular pairwise distinct. */
  lemma IdsUnique(s: seq<Issue>)
    requires IdsIncreasing(s)
    ensures forall i, j :: 0 <= i < |s| && 0 <= j < |s| && s[i].id == s[j].id ==> i == j
  {
  }

  /** Appending a record that carries the counter, and bumping the counter, keeps the invariant. */
  lemma AppendKeepsIds(s: seq<Issue>, counter: nat, issue: Issue)
    requires IdsIncreasing(s) && IdsBelow(s, counter) && issue.id == counter
    ensures IdsIncreasing(s + [issue]) && IdsBelow(s + [issue], counter + 1)
  {
  }

  /** Any selection of a table with increasing ids again has increasing ids. */
  lemma {:induction false} FilterKeepsIdsIncreasing(s: seq<Issue>, keep: Issue -> bool)
    requires IdsIncreasing(s)
    ensures IdsIncreasing(Filter(s, keep))
  {
    if s != [] {
      assert IdsIncreasing(s[1..]);
      FilterKeepsIdsIncreasing(s[1..], keep);
      if keep(s[0]) {
        var rest := Filter(s[1..], keep);
        forall j | 0 <= j < |rest|
          ensures s[0].id < rest[j].id
        {
          assert rest[j] in s[1..];
        }
      }
    }
  }

  // ---------------------------------------------------------------- lookup and status update

  /** `next((i for i in issues if i["id"] == id), None)`: the position of the first record with that id. */
  function IndexOf(s: seq<Issue>, id: nat): (r: Option<nat>)
    ensures r.Some? ==> r.value < |s| && s[r.value].id == id
    ensures r.Some? ==> forall k :: 0 <= k < r.value ==> s[k].id != id
    ensures r.None? <==> forall k :: 0 <= k < |s| ==> s[k].id != id
  {
    if s == [] then None
    else if s[0].id == id then Some(0)
    else match IndexOf(s[1..], id)
      case None => None
      case Some(k) => Some(k + 1)
  }

  /** With unique ids, the lookup finds the one record that carries the id. */
  lemma IndexOfUnique(s: seq<Issue>, k: nat)
    requires IdsIncreasing(s) && k < |s|
    ensures IndexOf(s, s[k].id) == Some(k)
  {
  }

  /** The record after a status change: new status, and one more history line. */
  function WithStatus(issue: Issue, status: string, stamp: string): (r: Issue)
    ensures r.status == status
    ensures r.history == issue.history + [HistoryEntry(stamp, status)]
    ensures r.(status := issue.status, history := issue.history) == issue
  {
    issue.(status := status, history := issue.history + [HistoryEntry(stamp, status)])
  }

  /** Replacing one record by its status-changed version touches nothing else and keeps the id invariant. */
  lemma StatusChangeFrame(s: seq<Issue>, k: nat, status: string, stamp: string, counter: nat)
    requires k < |s| && IdsIncreasing(s) && IdsBelow(s, counter)
    ensures var t := s[k := WithStatus(s[k], status, stamp)];
      && |t| == |s|
      && (forall j :: 0 <= j < |s| && j != k ==> t[j] == s[j])
      && t[k].id == s[k].id && t[k].status == status
      && |t[k].history| == |s[k].history| + 1
      && IdsIncreasing(t) && IdsBelow(t, counter)
  {
  }

  // ---------------------------------------------------------------- listing

  /** Python's `str.lower()` on ASCII letters. */
  function LowerChar(c: char): (r: char)
    ensures 'A' <= c <= 'Z' ==> r as int == c as int + 32
    ensures !('A' <= c <= 'Z') ==> r == c
    ensures !('A' <= r <= 'Z')
    ensures 'A' <= c <= 'Z' <==> r != c
  {
    if 'A' <= c <= 'Z' then (c as int + 32) as char else c
  }

  function Lower(s: string): (r: string)
    ensures |r| == |s|
    ensures forall i :: 0 <= i < |s| ==> r[i] == LowerChar(s[i])
  {
    if s == [] then [] else [LowerChar(s[0])] + Lower(s[1..])
  }

  /** Lowercasing works character by character, so it distributes over concatenation. */
  lemma LowerConcat(a: string, b: string)
    ensures Lower(a + b) == Lower(a) + Lower(b)
  {
  }

  /** The needle occurs in the haystack starting at position `i`. */
  ghost predicate OccursAt(hay: string, needle: string, i: int)
  {
    0 <= i && i + |needle| <= |hay| && hay[i..i + |needle|] == needle
  }

  /** Python's `needle in hay` for strings. */
  predicate Contains(hay: string, needle: string)
    decreases |hay|
  {
    (|needle| <= |hay| && hay[..|needle|] == needle) || (hay != [] && Contains(hay[1..], needle))
  }

  /** `Contains` is substring search: it holds exactly when the needle occurs at some position. */
  lemma {:induction false} ContainsOccurs(hay: string, needle: string)
    ensures Contains(hay, needle) <==> exists i :: OccursAt(hay, needle, i)
    decreases |hay|
  {
    if |needle| <= |hay| && hay[..|needle|] == needle {
      assert OccursAt(hay, needle, 0);
    }
    if hay != [] {
      ContainsOccurs(hay[1..], needle);
      if exists i :: OccursAt(hay[1..], needle, i) {
        var i :| OccursAt(hay[1..], needle, i);
        assert hay[1..][i..i + |needle|] == hay[i + 1..i + 1 + |needle|];
        assert OccursAt(hay, needle, i + 1);
      }
      if exists i :: OccursAt(hay, needle, i) {
        var i :| OccursAt(hay, needle, i);
        if i > 0 {
          assert hay[1..][i - 1..i - 1 + |needle|] == hay[i..i + |needle|];
          assert OccursAt(hay[1..], needle, i - 1);
        }
      }
    } else {
      if exists i :: OccursAt(hay, needle, i) {
        var i :| OccursAt(hay, needle, i);
        assert i == 0 && needle == [];
      }
    }
  }

  /** The text a search is matched against: lowercased title, a space, lowercased description. */
  function SearchText(issue: Issue): (r: string)
    ensures r == Lower(issue.title + " " + issue.description)
  {
    LowerConcat(issue.title + " ", issue.description);
    LowerConcat(issue.title, " ");
    Lower(issue.title) + " " + Lower(issue.description)
  }

  /** The status filter of a GET: exact string comparison. */
  predicate HasStatus(issue: Issue, status: string)
  {
    issue.status == status
  }

  /** The search filter of a GET: substring of the lowercased search text. */
  predicate MatchesSearch(issue: Issue, needle: string)
  {
    Contains(SearchText(issue), needle)
  }

  /** Whether an issue survives both filters of a GET. */
  predicate Selected(issue: Issue, status: string, needle: string)
  {
    (status == ALL || HasStatus(issue, status)) && (needle == [] || MatchesSearch(issue, needle))
  }

  /**
   * GET /api/issues: start from a copy of the table, keep the exact status
   * unless it is "All", then keep the records whose search text contains the
   * lowercased search string unless that string is empty.
   */
  function ListIssues(s: seq<Issue>, status: string, search: string): seq<Issue>
  {
    var byStatus := if status != ALL then Filter(s, (i: Issue) => HasStatus(i, status)) else s;
    var needle := Lower(search);
    if needle != [] then Filter(byStatus, (i: Issue) => MatchesSearch(i, needle)) else byStatus
  }

  /** The listing is one order-preserving selection, by `Selected`. */
  lemma ListIssuesIsSelection(s: seq<Issue>, status: string, search: string)
    ensures ListIssues(s, status, search) == Filter(s, (i: Issue) => Selected(i, status, Lower(search)))
  {
    var needle := Lower(search);
    if status != ALL && needle != [] {
      BothFiltersAreSelection(s, status, needle);
    } else if status != ALL {
      FilterExtensional(s, (i: Issue) => HasStatus(i, status), (i: Issue) => Selected(i, status, needle));
    } else if needle != [] {
      FilterExtensional(s, (i: Issue) => MatchesSearch(i, needle), (i: Issue) => Selected(i, status, needle));
    } else {
      FilterExtensional(s, (i: Issue) => true, (i: Issue) => Selected(i, status, needle));
    }
  }

  lemma BothFiltersAreSelection(s: seq<Issue>, status: string, needle: string)
    requires status != ALL && needle != []
    ensures Filter(Filter(s, (i: Issue) => HasStatus(i, status)), (i: Issue) => MatchesSearch(i, needle))
         == Filter(s, (i: Issue) => Selected(i, status, needle))
  {
    FilterFilter(s, (i: Issue) => HasStatus(i, status), (i: Issue) => MatchesSearch(i, needle),
                 (i: Issue) => Selected(i, status, needle));
  }

  /**
   * What a listing returns: an order-preserving subsequence of the table
   * holding exactly the records with the requested status (unless "All")
   * whose search text contains the lowercased search string (unless empty).
   */
  lemma ListIssuesSpec(s: seq<Issue>, status: string, search: string)
    ensures var r := ListIssues(s, status, search);
      && IsSubsequence(r, s)
      && (forall x :: x in r <==> x in s && Selected(x, status, Lower(search)))
      && (status != ALL ==> forall x :: x in r ==> HasStatus(x, status))
      && (search != [] ==> forall x :: x in r ==> MatchesSearch(x, Lower(search)))
  {
    ListIssuesIsSelection(s, status, search);
    FilterIsSubsequence(s, (i: Issue) => Selected(i, status, Lower(search)));
  }

  /** With status "All" and an empty search the listing is the whole table, in order. */
  lemma ListAllIsEverything(s: seq<Issue>)
    ensures ListIssues(s, ALL, "") == s
  {
  }

  /** A listing of a valid table has increasing, hence unique, ids. */
  lemma ListIssuesIdsIncreasing(s: seq<Issue>, status: string, search: string)
    requires IdsIncreasing(s)
    ensures IdsIncreasing(ListIssues(s, status, search))
  {
    ListIssuesIsSelection(s, status, search);
    FilterKeepsIdsIncreasing(s, (i: Issue) => Selected(i, status, Lower(search)));
  }

  // ---------------------------------------------------------------- the store

  class Store {
    /** `issues`: the table, in creation order. */
    var issues: seq<Issue>
    /** `issue_counter`: the id the next created issue receives. */
    var counter: nat

    ghost predicate Valid()
      reads this
    {
      1 <= counter && IdsIncreasing(issues) && IdsBelow(issues, counter)
    }

    /** Module load: an empty table and the counter at 1. */
    constructor ()
      ensures Valid() && issues == [] && counter == 1
    {
      issues := [];
      counter := 1;
    }

    /**
     * POST /api/issues: the new record takes the counter as its id, status
     * "Reported" and a one-line history whatever the payload says, is
     * appended at the end, and the counter moves on by one.  When `float`
     * raises on a coordinate the request fails and nothing changes.
     */
    method Create(data: map<string, string>, lat: Option<JsonValue>, lng: Option<JsonValue>,
                  parseFloat: string -> Option<real>, date: string, stamp: string) returns (r: Option<Issue>)
      requires Valid()
      modifies this
      ensures Valid()
      ensures r == NewIssue(old(counter), data, lat, lng, parseFloat, date, stamp)
      ensures r.None? ==> issues == old(issues) && counter == old(counter)
      ensures r.Some? ==> var issue := r.value;
        && issue.id == old(counter) && counter == old(counter) + 1
        && issue.status == REPORTED && |issue.history| == 1
        && issues == old(issues) + [issue]
        && forall id :: id in IdSet(old(issues)) ==> id != issue.id
    {
      r := NewIssue(counter, data, lat, lng, parseFloat, date, stamp);
      if r.Some? {
        AppendKeepsIds(issues, counter, r.value);
        issues := issues + [r.value];
        counter := counter + 1;
      }
    }

    /** GET /api/issues with the date filter at "All": reads the table and changes nothing. */
    method List(status: string, search: string) returns (r: seq<Issue>)
      requires Valid()
      ensures r == ListIssues(issues, status, search)
      ensures IsSubsequence(r, issues) && IdsIncreasing(r)
      ensures status == ALL && search == [] ==> r == issues
      ensures forall x :: x in r <==> x in issues && Selected(x, status, Lower(search))
    {
      ListIssuesSpec(issues, status, search);
      ListIssuesIdsIncreasing(issues, status, search);
      r := ListIssues(issues, status, search);
    }

    /**
     * PATCH /api/issues/<id>: find the first record with that id; if there
     * is none, report "not found" and change nothing.  Otherwise, when the
     * payload has a "status" key, overwrite that record's status with it (no
     * transition check) and append one history line; return the record.
     */
    method Update(id: nat, data: map<string, string>, stamp: string) returns (r: Option<Issue>)
      requires Valid()
      modifies this
      ensures Valid() && counter == old(counter)
      ensures IndexOf(old(issues), id).None? ==> r.None? && issues == old(issues)
      ensures IndexOf(old(issues), id).Some? ==>
        var k := IndexOf(old(issues), id).value;
        && issues == (if "status" in data then old(issues)[k := WithStatus(old(issues)[k], data["status"], stamp)]
                      else old(issues))
        && r == Some(issues[k])
    {
      var k := 0;
      while k < |issues| && issues[k].id != id
        invariant 0 <= k <= |issues|
        invariant forall j :: 0 <= j < k ==> issues[j].id != id
      {
        k := k + 1;
      }
      if k == |issues| {
        return None;
      }
      if "status" in data {
        StatusChangeFrame(issues, k, data["status"], stamp, counter);
        issues := issues[k := WithStatus(issues[k], data["status"], stamp)];
      }
      r := Some(issues[k]);
    }
  }

  /** The ids present in a table. */
  function IdSet(s: seq<Issue>): (ids: set<nat>)
    ensures forall k :: 0 <= k < |s| ==> s[k].id in ids
    ensures forall id :: id in ids ==> exists k :: 0 <= k < |s| && s[k].id == id
  {
    set k | 0 <= k < |s| :: s[k].id
  }
}
