/**
 * The browser side of the civic-issue reporter (script.js), restricted to
 * its string logic: HTML escaping of the text it interpolates into markup,
 * the CSS class and map icon chosen for a status, and the checks the report
 * form runs before it posts a new issue.
 *
 * JavaScript's `Number(...)` conversion is a parameter `toNumber` of the
 * members that need it: the model only distinguishes NaN from a number.
 */
module ClientScript {
  import opened Wrappers
  import opened JsStrings

  // ---------------------------------------------------------------- escapeHtml

  /** The values `escapeHtml` is called with: record fields that may be missing, strings, numbers. */
  datatype JsValue = Undefined | Null | Bool(b: bool) | Int(n: int) | Str(s: string)

  predicate IsFalsy(v: JsValue)
  {
    v.Undefined? || v.Null? || v == Bool(false) || v == Int(0) || v == Str("")
  }

  function DigitChar(d: nat): (c: char)
    requires d < 10
    ensures '0' <= c <= '9'
  {
    ('0' as int + d) as char
  }

  /** The number a string of decimal digits denotes, most significant digit first. */
  function DigitsValue(s: string): int
  {
    if s == [] then 0 else 10 * DigitsValue(s[..|s| - 1]) + (s[|s| - 1] as int - '0' as int)
  }

  /**
   * Decimal notation of a natural number, most significant digit first: the
   * digits denote `n`, and there is no leading zero.
   */
  function Decimal(n: nat): (r: string)
    ensures |r| >= 1
    ensures forall k :: 0 <= k < |r| ==> '0' <= r[k] <= '9'
    ensures DigitsValue(r) == n
    ensures r[0] == '0' ==> n == 0
  {
    if n < 10 then
      assert [DigitChar(n)][..0] == [];
      [DigitChar(n)]
    else
      var prefix := Decimal(n / 10);
      var r := prefix + [DigitChar(n % 10)];
      assert r[..|r| - 1] == prefix;
      r
  }

  /** `String(v || "")`: a falsy value shows as the empty string, and only a falsy value does. */
  function DisplayText(v: JsValue): (r: string)
    ensures r == [] <==> IsFalsy(v)
  {
    match v
    case Undefined => ""
    case Null => ""
    case Bool(b) => if b then "true" else ""
    case Int(n) => if n == 0 then "" else if n < 0 then "-" + Decimal(-n) else Decimal(n)
    case Str(s) => s
  }

  /** The five characters that are significant in HTML text and attribute values. */
  predicate IsMarkup(c: char)
  {
    c == '&' || c == '<' || c == '>' || c == '"' || c == '\''
  }

  /** The replacement of one character: its entity if it is significant, itself otherwise. */
  function EscapeChar(c: char): (r: string)
    ensures c == '&' ==> r == "&amp;"
    ensures c == '<' ==> r == "&lt;"
    ensures c == '>' ==> r == "&gt;"
    ensures c == '"' ==> r == "&quot;"
    ensures c == '\'' ==> r == "&#39;"
    ensures !IsMarkup(c) ==> r == [c]
  {
    match c
    case '&' => "&amp;"
    case '<' => "&lt;"
    case '>' => "&gt;"
    case '"' => "&quot;"
    case '\'' => "&#39;"
    case _ => [c]
  }

  /** The output may still hold '&' (of the entities) but none of the other four. */
  ghost predicate FreeOfTagAndQuote(s: string)
  {
    forall k :: 0 <= k < |s| ==> s[k] != '<' && s[k] != '>' && s[k] != '"' && s[k] != '\''
  }

  /** The regular-expression replacement `s.replace(/[&<>"']/g, ...)`, one character at a time. */
  function EscapeText(s: string): (r: string)
    ensures |r| >= |s|
    ensures FreeOfTagAndQuote(r)
  {
    if s == [] then [] else EscapeChar(s[0]) + EscapeText(s[1..])
  }

  /** `escapeHtml(v)`. */
  function EscapeHtml(v: JsValue): (r: string)
    ensures IsFalsy(v) ==> r == []
    ensures |r| >= |DisplayText(v)|
    ensures FreeOfTagAndQuote(r)
  {
    EscapeText(DisplayText(v))
  }

  /** Escaping distributes over concatenation. */
  lemma {:induction false} EscapeConcat(a: string, b: string)
    ensures EscapeText(a + b) == EscapeText(a) + EscapeText(b)
  {
    if a != [] {
      assert (a + b)[0] == a[0] && (a + b)[1..] == a[1..] + b;
      EscapeConcat(a[1..], b);
    } else {
      assert a + b == b;
    }
  }

  /** Escaping changes a string exactly when it holds one of the five significant characters. */
  lemma {:induction false} EscapeUnchangedIffPlain(s: string)
    ensures EscapeText(s) == s <==> forall k :: 0 <= k < |s| ==> !IsMarkup(s[k])
  {
    if s != [] {
      EscapeUnchangedIffPlain(s[1..]);
      var rest := EscapeText(s[1..]);
      if IsMarkup(s[0]) {
        assert |EscapeChar(s[0])| >= 4;
        assert |EscapeText(s)| > |s|;
      } else {
        assert EscapeText(s) == [s[0]] + rest;
        if rest == s[1..] {
          assert EscapeText(s) == s;
        } else {
          assert EscapeText(s)[1..] == rest;
        }
        assert forall k :: 1 <= k < |s| ==> s[k] == s[1..][k - 1];
      }
    }
  }

  // ---------------------------------------------------------------- decoding, the inverse of escaping

  predicate StartsWith(s: string, prefix: string)
  {
    |prefix| <= |s| && s[..|prefix|] == prefix
  }

  /**
   * What an HTML parser makes of text holding the five entities: each entity
   * decodes to its character, everything else stands for itself.
   */
  function Unescape(s: string): string
    decreases |s|
  {
    if s == [] then []
    else if StartsWith(s, "&amp;") then "&" + Unescape(s[5..])
    else if StartsWith(s, "&lt;") then "<" + Unescape(s[4..])
    else if StartsWith(s, "&gt;") then ">" + Unescape(s[4..])
    else if StartsWith(s, "&quot;") then "\"" + Unescape(s[6..])
    else if StartsWith(s, "&#39;") then "'" + Unescape(s[5..])
    else [s[0]] + Unescape(s[1..])
  }

  /** Decoding the replacement of one character gives back that character. */
  lemma UnescapeStep(c: char, t: string)
    ensures Unescape(EscapeChar(c) + t) == [c] + Unescape(t)
  {
    if IsMarkup(c) {
      UnescapeEntity(c, t);
    } else {
      UnescapePlain(c, t);
    }
  }

  /** An entity at the front decodes to its character, and decoding resumes right after it. */
  lemma UnescapeEntity(c: char, t: string)
    requires IsMarkup(c)
    ensures Unescape(EscapeChar(c) + t) == [c] + Unescape(t)
  {
    var e := EscapeChar(c);
    var s := e + t;
    assert s[..|e|] == e && s[|e|..] == t;
    assert StartsWith(s, e);
    assert s[1] == e[1];
    if c != '&' { MismatchAt(s, "&amp;", 1); }
    if c != '&' && c != '<' { MismatchAt(s, "&lt;", 1); }
    if c != '&' && c != '<' && c != '>' { MismatchAt(s, "&gt;", 1); }
    if c == '\'' { MismatchAt(s, "&quot;", 1); }
  }

  /** Any other character stands for itself. */
  lemma UnescapePlain(c: char, t: string)
    requires !IsMarkup(c)
    ensures Unescape(EscapeChar(c) + t) == [c] + Unescape(t)
  {
    var s := [c] + t;
    assert EscapeChar(c) + t == s;
    assert s[0] == c && s[1..] == t;
    MismatchAt(s, "&amp;", 0);
    MismatchAt(s, "&lt;", 0);
    MismatchAt(s, "&gt;", 0);
    MismatchAt(s, "&quot;", 0);
    MismatchAt(s, "&#39;", 0);
  }

  /** A text that differs from a pattern at some position does not start with it. */
  lemma MismatchAt(s: string, prefix: string, i: nat)
    requires i < |s| && i < |prefix| && s[i] != prefix[i]
    ensures !StartsWith(s, prefix)
  {
  }

  /** Escaping loses nothing: decoding the escaped text gives the original text. */
  lemma {:induction false} UnescapeEscape(s: string)
    ensures Unescape(EscapeText(s)) == s
  {
    if s != [] {
      UnescapeStep(s[0], EscapeText(s[1..]));
      UnescapeEscape(s[1..]);
      assert [s[0]] + s[1..] == s;
    }
  }

  // ---------------------------------------------------------------- statusClass

  /** `statusClass(status)`: the badge class of the three known statuses, "" for anything else. */
  function StatusClass(status: string): (r: string)
    ensures status == "Reported" <==> r == "status-reported"
    ensures status == "In Progress" <==> r == "status-progress"
    ensures status == "Solved" <==> r == "status-solved"
    ensures r == "" <==> status !in {"Reported", "In Progress", "Solved"}
  {
    if status == "Reported" then "status-reported"
    else if status == "In Progress" then "status-progress"
    else if status == "Solved" then "status-solved"
    else ""
  }

  // ---------------------------------------------------------------- marker icons

  /** The four marker images held by the `ICONS` object. */
  datatype Icon = RedDot | OrangeDot | GreenDot | CheckCircle

  /** The own properties of `ICONS`. */
  function OwnProperty(key: string): (r: Option<Icon>)
    ensures r.Some? <==> key in {"Reported", "In Progress", "Solved", "SolvedFinal"}
  {
    if key == "Reported" then Some(RedDot)
    else if key == "In Progress" then Some(OrangeDot)
    else if key == "Solved" then Some(GreenDot)
    else if key == "SolvedFinal" then Some(CheckCircle)
    else None
  }

  /** The members every plain JavaScript object inherits from `Object.prototype`. */
  const INHERITED_MEMBERS: set<string> := {
    "constructor", "hasOwnProperty", "isPrototypeOf", "propertyIsEnumerable",
    "toLocaleString", "toString", "valueOf", "__proto__",
    "__defineGetter__", "__defineSetter__", "__lookupGetter__", "__lookupSetter__"
  }

  /** What `ICONS[key]` evaluates to: an icon, an inherited function or object, or `undefined`. */
  datatype Property = IconValue(icon: Icon) | InheritedMember(name: string) | NoProperty

  function IconsIndex(key: string): (r: Property)
    ensures OwnProperty(key).Some? ==> r == IconValue(OwnProperty(key).value)
    ensures OwnProperty(key).None? && key in INHERITED_MEMBERS ==> r == InheritedMember(key)
    ensures r == NoProperty <==> OwnProperty(key).None? && key !in INHERITED_MEMBERS
  {
    match OwnProperty(key)
    case Some(icon) => IconValue(icon)
    case None => if key in INHERITED_MEMBERS then InheritedMember(key) else NoProperty
  }

  /**
   * `ICONS[status] || ICONS.Reported` as written: everything but `undefined`
   * is truthy here, so an inherited member is chosen instead of the fallback.
   */
  function IconChoiceAsWritten(status: string): (r: Property)
    ensures r != NoProperty
    ensures IconsIndex(status) != NoProperty ==> r == IconsIndex(status)
    ensures IconsIndex(status) == NoProperty ==> r == IconValue(RedDot)
  {
    if IconsIndex(status) == NoProperty then IconValue(RedDot) else IconsIndex(status)
  }

  /** A status named like an inherited member yields something that is not an icon. */
  lemma InheritedStatusGetsNoIcon()
    ensures IconChoiceAsWritten("constructor") == InheritedMember("constructor")
    ensures !IconChoiceAsWritten("toString").IconValue?
  {
  }

  /**
   * The intended choice: the icon stored under the status when `ICONS` has
   * one of its own, the "Reported" icon for every other status.
   */
  function IconFor(status: string): (r: Icon)
    ensures status == "Reported" ==> r == RedDot
    ensures status == "In Progress" ==> r == OrangeDot
    ensures status == "Solved" ==> r == GreenDot
    ensures status == "SolvedFinal" ==> r == CheckCircle
    ensures status !in {"In Progress", "Solved", "SolvedFinal"} ==> r == RedDot
  {
    match OwnProperty(status)
    case Some(icon) => icon
    case None => RedDot
  }

  /** The choice as written and the intended one agree on every status that is not an inherited member's name. */
  lemma IconChoiceAgrees(status: string)
    ensures status !in INHERITED_MEMBERS <==> IconChoiceAsWritten(status) == IconValue(IconFor(status))
  {
  }

  /**
   * The first icon `addPublicMarker` puts on the public map: green for a
   * solved issue (its later swap to the check mark and removal are timed and
   * not modelled), the icon choice for every other status.
   */
  function PublicMarkerIcon(status: string): (r: Icon)
    ensures status == "Solved" ==> r == GreenDot
    ensures status != "Solved" ==> r == IconFor(status)
    ensures r == GreenDot <==> status == "Solved"
  {
    if status == "Solved" then GreenDot else IconFor(status)
  }

  // ---------------------------------------------------------------- the report form

  /** The outcome of JavaScript's `Number(text)`. */
  datatype JsNumber = NaN | Finite(value: real) | Infinite(negative: bool)

  datatype Location = Location(lat: JsNumber, lng: JsNumber)

  /**
   * `loc.split(',').map(x => Number(x.trim()))`, accepted when there are at
   * least two parts and neither of the first two is NaN.
   */
  function ParseLocation(loc: string, toNumber: string -> JsNumber): (r: Option<Location>)
    ensures r.Some? ==> r.value.lat != NaN && r.value.lng != NaN
  {
    var parts := Split(loc, ',');
    var numbers := seq(|parts|, k requires 0 <= k < |parts| => toNumber(Trim(parts[k])));
    if |numbers| >= 2 && numbers[0] != NaN && numbers[1] != NaN then Some(Location(numbers[0], numbers[1]))
    else None
  }

  /** A separator-free part followed by the separator is split off as the first part. */
  lemma SplitAtSeparator(a: string, t: string, sep: char)
    requires sep !in a
    ensures Split(a + [sep] + t, sep) == [a] + Split(t, sep)
  {
    assert a + [sep] + t == a + ([sep] + t);
    SplitFreePrefix(a, [sep] + t, sep);
    assert ([sep] + t)[1..] == t;
    assert a + [] == a;
  }

  /** A separator-free string is one part. */
  lemma SplitSingle(a: string, sep: char)
    requires sep !in a
    ensures Split(a, sep) == [a]
  {
    SplitFreePrefix(a, [], sep);
    assert a + [] == a;
  }

  /** Only the first two parts of the split location decide the outcome. */
  lemma ParseLocationFirstTwo(loc: string, toNumber: string -> JsNumber, first: string, second: string)
    requires |Split(loc, ',')| >= 2 && Split(loc, ',')[0] == first && Split(loc, ',')[1] == second
    ensures ParseLocation(loc, toNumber) ==
      if toNumber(Trim(first)) != NaN && toNumber(Trim(second)) != NaN
      then Some(Location(toNumber(Trim(first)), toNumber(Trim(second)))) else None
  {
  }

  /** Without a comma there is a single part, so the location is refused. */
  lemma LocationNeedsComma(loc: string, toNumber: string -> JsNumber)
    requires ',' !in loc
    ensures ParseLocation(loc, toNumber) == None
  {
    SplitSingle(loc, ',');
  }

  /** "lat,lng" is accepted exactly when both halves convert to numbers, and yields them. */
  lemma LocationPair(a: string, b: string, toNumber: string -> JsNumber)
    requires ',' !in a && ',' !in b
    ensures ParseLocation(a + "," + b, toNumber) ==
      if toNumber(Trim(a)) != NaN && toNumber(Trim(b)) != NaN
      then Some(Location(toNumber(Trim(a)), toNumber(Trim(b)))) else None
  {
    SplitAtSeparator(a, b, ',');
    SplitSingle(b, ',');
    ParseLocationFirstTwo(a + "," + b, toNumber, a, b);
  }

  /** Parts after the second one are ignored. */
  lemma LocationIgnoresExtraParts(a: string, b: string, rest: string, toNumber: string -> JsNumber)
    requires ',' !in a && ',' !in b
    ensures ParseLocation(a + "," + b + "," + rest, toNumber) == ParseLocation(a + "," + b, toNumber)
  {
    assert a + "," + b + "," + rest == a + [','] + (b + [','] + rest);
    SplitAtSeparator(a, b + [','] + rest, ',');
    SplitAtSeparator(b, rest, ',');
    ParseLocationFirstTwo(a + "," + b + "," + rest, toNumber, a, b);
    LocationPair(a, b, toNumber);
  }

  /** What `submitIssue` does with the form: post the trimmed fields and location, or alert. */
  datatype Submission = Post(title: string, description: string, location: Location) | MissingFields | BadLocation

  /**
   * The checks of `submitIssue`, in order: every one of title, description
   * and location must be non-empty after trimming (checked before the
   * location is looked at), then the location must parse as "lat,lng".
   */
  method CheckSubmission(rawTitle: string, rawDesc: string, rawLoc: string, toNumber: string -> JsNumber)
    returns (out: Submission)
    ensures out == MissingFields <==> Trim(rawTitle) == [] || Trim(rawDesc) == [] || Trim(rawLoc) == []
    ensures out == BadLocation <==> out != MissingFields && ParseLocation(Trim(rawLoc), toNumber).None?
    ensures out.Post? ==> out.title == Trim(rawTitle) && out.description == Trim(rawDesc)
    ensures out.Post? ==> Some(out.location) == ParseLocation(Trim(rawLoc), toNumber)
  {
    var title := Trim(rawTitle);
    var desc := Trim(rawDesc);
    var loc := Trim(rawLoc);
    if title == [] || desc == [] || loc == [] {
      return MissingFields;
    }
    var lat, lng := Finite(0.0), Finite(0.0);
    var parts := Split(loc, ',');
    var numbers := seq(|parts|, k requires 0 <= k < |parts| => toNumber(Trim(parts[k])));
    if |numbers| >= 2 && numbers[0] != NaN && numbers[1] != NaN {
      lat, lng := numbers[0], numbers[1];
    } else {
      return BadLocation;
    }
    out := Post(title, desc, Location(lat, lng));
  }
}
