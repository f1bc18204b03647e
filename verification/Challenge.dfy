/**
 The step-up challenge of RFC 9470, read out of a `WWW-Authenticate` header by searching for its parameters.

 The reference is a header printed from a list of parameters: a scheme, then for each parameter a separator
 of commas and spaces, its name, and its quoted value.
 */
module Challenge {
  import opened Options

  // ---------------------------------------------------------------------
  // Searching
  // ---------------------------------------------------------------------

  predicate MatchesAt(s: string, pattern: string, i: nat) {
    i + |pattern| <= |s| && s[i..i + |pattern|] == pattern
  }

  /** `s[from..].find(pattern)`, as an index into `s`. */
  method FindFrom(s: string, pattern: string, from: nat) returns (r: Option<nat>)
    requires from <= |s|
    ensures r.Some? ==> from <= r.value && MatchesAt(s, pattern, r.value)
    ensures forall j :: from <= j && (r.Some? ==> j < r.value) ==> !MatchesAt(s, pattern, j)
  {
    var i := from;
    while i + |pattern| <= |s|
      invariant from <= i
      invariant forall j :: from <= j < i ==> !MatchesAt(s, pattern, j)
      decreases |s| - i
    {
      if s[i..i + |pattern|] == pattern {
        return Some(i);
      }
      i := i + 1;
    }
    return None;
  }

  predicate IsDelimiter(c: char) {
    c == ',' || c == ' '
  }

  function Prefix(name: string): string {
    name + "=\""
  }

  /** A whole parameter name starts here: at the start of the header or after a comma or a space. */
  predicate ParamAt(header: string, name: string, i: nat) {
    MatchesAt(header, Prefix(name), i) && (i == 0 || IsDelimiter(header[i - 1]))
  }

  predicate IsFirstParam(header: string, name: string, i: nat) {
    ParamAt(header, name, i) && forall j :: 0 <= j < i ==> !ParamAt(header, name, j)
  }

  /** The text between `start` and the next quote. */
  function QuotedFrom(header: string, start: nat): Option<string>
    requires start <= |header|
    decreases |header| - start
  {
    if start == |header| then None
    else if header[start] == '\"' then Some("")
    else
      var rest := QuotedFrom(header, start + 1);
      if rest.None? then None else Some([header[start]] + rest.value)
  }

  lemma {:induction false} QuotedRuns(header: string, start: nat, end: nat)
    requires start <= end < |header| && header[end] == '\"'
    requires forall i :: start <= i < end ==> header[i] != '\"'
    ensures QuotedFrom(header, start) == Some(header[start..end])
    decreases end - start
  {
    if start == end {
      assert header[start..end] == "";
    } else {
      QuotedRuns(header, start + 1, end);
      assert header[start..end] == [header[start]] + header[start + 1..end];
    }
  }

  lemma {:induction false} NoQuote(header: string, start: nat)
    requires start <= |header| && forall i :: start <= i < |header| ==> header[i] != '\"'
    ensures QuotedFrom(header, start) == None
    decreases |header| - start
  {
    if start == |header| {
    } else {
      NoQuote(header, start + 1);
    }
  }

  /** What the search returns: the quoted text after the first whole name, or nothing. */
  ghost predicate IsExtract(header: string, name: string, r: Option<string>) {
    && (forall i :: 0 <= i && IsFirstParam(header, name, i) ==> r == QuotedFrom(header, i + |Prefix(name)|))
    && ((forall i :: 0 <= i ==> !ParamAt(header, name, i)) ==> r == None)
  }

  /** The search loop: skip a match that is not at a boundary and look again one character on. */
  method ExtractParam(header: string, name: string) returns (r: Option<string>)
    ensures IsExtract(header, name, r)
  {
    var prefix := Prefix(name);
    var searchFrom := 0;
    while true
      invariant searchFrom <= |header|
      invariant forall i :: 0 <= i < searchFrom ==> !ParamAt(header, name, i)
      decreases |header| - searchFrom
    {
      var found := FindFrom(header, prefix, searchFrom);
      if found.None? {
        return None;
      }
      var start := found.value;
      if start > 0 && !IsDelimiter(header[start - 1]) {
        searchFrom := start + 1;
        continue;
      }
      assert IsFirstParam(header, name, start);
      var valueStart := start + |prefix|;
      var end := FindFrom(header, "\"", valueStart);
      if end.None? {
        assert forall i :: valueStart <= i < |header| ==> header[i] != '\"' by {
          forall i | valueStart <= i < |header| ensures header[i] != '\"' {
            assert !MatchesAt(header, "\"", i);
          }
        }
        NoQuote(header, valueStart);
        return None;
      }
      assert forall i :: valueStart <= i < end.value ==> header[i] != '\"' by {
        forall i | valueStart <= i < end.value ensures header[i] != '\"' {
          assert !MatchesAt(header, "\"", i);
        }
      }
      QuotedRuns(header, valueStart, end.value);
      return Some(header[valueStart..end.value]);
    }
  }

  // ---------------------------------------------------------------------
  // Printed challenges
  // ---------------------------------------------------------------------

  datatype Param = Param(sep: string, name: string, value: string)

  predicate IsToken(name: string) {
    name != [] && forall c :: c in name ==> c != '\"' && c != '=' && c != ',' && c != ' '
  }

  /** A separator of commas and spaces, a token, and a value without quotes. */
  predicate Printable(p: Param) {
    && p.sep != [] && (forall c :: c in p.sep ==> c == ',' || c == ' ')
    && IsToken(p.name)
    && '\"' !in p.value
  }

  function Show(p: Param): string {
    p.sep + p.name + "=\"" + p.value + "\""
  }

  function ShowAll(params: seq<Param>): string {
    if params == [] then "" else Show(params[0]) + ShowAll(params[1..])
  }

  function Lookup(params: seq<Param>, name: string): Option<string> {
    if params == [] then None
    else if params[0].name == name then Some(params[0].value)
    else Lookup(params[1..], name)
  }

  /** The value ends with a delimiter, the name and an equals sign, so its closing quote completes a false match. */
  predicate Spoils(value: string, name: string) {
    && |value| >= |name| + 2
    && value[|value| - |name| - 1..] == name + "="
    && IsDelimiter(value[|value| - |name| - 2])
  }

  /** As `ParamAt`, for text that follows the character `prev`. */
  predicate HitAt(prev: char, s: string, name: string, i: nat) {
    MatchesAt(s, Prefix(name), i) && IsDelimiter(if i == 0 then prev else s[i - 1])
  }

  /** What stands at a match: the name, an equals sign and a quote. */
  lemma MatchLayout(s: string, name: string, i: nat)
    requires IsToken(name) && MatchesAt(s, Prefix(name), i)
    ensures i + |name| + 2 <= |s|
    ensures s[i..i + |name|] == name && s[i + |name|] == '=' && s[i + |name| + 1] == '\"'
    ensures forall j :: i <= j < i + |name| ==> s[j] != '\"' && s[j] != '=' && !IsDelimiter(s[j])
  {
    var m := s[i..i + |Prefix(name)|];
    assert m[..|name|] == name && m[|name|] == '=' && m[|name| + 1] == '\"';
    assert s[i..i + |name|] == m[..|name|];
    forall j | i <= j < i + |name| ensures s[j] != '\"' && s[j] != '=' && !IsDelimiter(s[j]) {
      assert s[j] == name[j - i] && name[j - i] in name;
    }
  }

  /** Where the parts of a printed parameter lie. */
  lemma ShowLayout(p: Param, rest: string)
    requires Printable(p)
    ensures var s, eq := Show(p) + rest, |p.sep| + |p.name|;
            && |Show(p)| == eq + |p.value| + 3
            && s[|p.sep|..eq] == p.name && s[eq] == '=' && s[eq + 1] == '\"' && s[|Show(p)| - 1] == '\"'
            && (forall j :: 0 <= j < |p.sep| ==> IsDelimiter(s[j]))
            && (forall j :: |p.sep| <= j < eq ==> s[j] != '\"' && !IsDelimiter(s[j]))
  {
    var s, eq := Show(p) + rest, |p.sep| + |p.name|;
    assert s[|p.sep|..eq] == p.name;
    forall j | 0 <= j < |p.sep| ensures IsDelimiter(s[j]) {
      assert s[j] == p.sep[j] && p.sep[j] in p.sep;
    }
    forall j | |p.sep| <= j < eq ensures s[j] != '\"' && !IsDelimiter(s[j]) {
      assert s[j] == p.name[j - |p.sep|] && p.name[j - |p.sep|] in p.name;
    }
  }

  lemma ValueLayout(p: Param, rest: string)
    requires Printable(p)
    ensures var s, from := Show(p) + rest, |p.sep| + |p.name| + 2;
            && s[from - 1] == '\"'
            && s[from..from + |p.value|] == p.value
            && (forall j :: from <= j < from + |p.value| ==> s[j] == p.value[j - from] && s[j] != '\"')
            && s[from + |p.value|] == '\"' && |Show(p)| == from + |p.value| + 1
  {
    var s, from := Show(p) + rest, |p.sep| + |p.name| + 2;
    assert s[from..from + |p.value|] == p.value;
    forall j | from <= j < from + |p.value| ensures s[j] == p.value[j - from] && s[j] != '\"' {
      assert s[j] == p.value[j - from] && p.value[j - from] in p.value;
    }
  }

  /** In or before a parameter's name only the whole name is a hit. */
  lemma HitInName(prev: char, p: Param, rest: string, name: string, i: nat)
    requires Printable(p) && IsToken(name) && i <= |p.sep| + |p.name| + 1
    ensures HitAt(prev, Show(p) + rest, name, i) <==> i == |p.sep| && p.name == name
  {
    var s, eq := Show(p) + rest, |p.sep| + |p.name|;
    ShowLayout(p, rest);
    if HitAt(prev, s, name, i) {
      MatchLayout(s, name, i);
      assert i + |name| <= eq;
      assert s[i + |name| + 1] == '\"';
      assert i + |name| == eq;
      assert IsDelimiter(s[|p.sep| - 1]);
      assert i >= |p.sep|;
    }
    if i == |p.sep| && p.name == name {
      assert s[i..i + |Prefix(name)|] == Prefix(name);
    }
  }

  lemma SpoiltValueHits(prev: char, p: Param, rest: string, name: string)
    requires Printable(p) && IsToken(name) && Spoils(p.value, name)
    ensures HitAt(prev, Show(p) + rest, name, |Show(p)| - |name| - 2)
  {
    var s, v, i := Show(p) + rest, p.value, |Show(p)| - |name| - 2;
    ValueLayout(p, rest);
    assert s[i..i + |name| + 1] == v[|v| - |name| - 1..];
    assert s[i..i + |Prefix(name)|] == s[i..i + |name| + 1] + "\"";
    assert name + "=" + "\"" == Prefix(name);
  }

  lemma HitSpoilsValue(prev: char, p: Param, rest: string, name: string, i: nat)
    requires Printable(p) && IsToken(name) && |p.sep| + |p.name| + 2 <= i < |Show(p)|
    requires HitAt(prev, Show(p) + rest, name, i)
    ensures Spoils(p.value, name) && i == |Show(p)| - |name| - 2
  {
    var s, v, from := Show(p) + rest, p.value, |p.sep| + |p.name| + 2;
    MatchLayout(s, name, i);
    ValueLayout(p, rest);
    assert i + |name| + 1 == from + |v|;
    assert v[|v| - |name| - 1..] == s[i..i + |name|] + "=";
  }

  /** Where the search first stops: the named parameter, or an earlier value that spoils it. */
  function FirstHit(params: seq<Param>, name: string): Option<nat>
    requires forall p :: p in params ==> Printable(p)
  {
    if params == [] then None
    else
      var p := params[0];
      if p.name == name then Some(|p.sep|)
      else if Spoils(p.value, name) then Some(|Show(p)| - |name| - 2)
      else
        var rest := FirstHit(params[1..], name);
        if rest.None? then None else Some(|Show(p)| + rest.value)
  }

  lemma HitInRest(prev: char, p: Param, rest: string, name: string, i: nat)
    requires Printable(p)
    ensures HitAt(prev, Show(p) + rest, name, |Show(p)| + i) <==> HitAt('\"', rest, name, i)
  {
    var s := Show(p) + rest;
    if |Show(p)| + i + |Prefix(name)| <= |s| {
      assert s[|Show(p)| + i..|Show(p)| + i + |Prefix(name)|] == rest[i..i + |Prefix(name)|];
    }
  }

  lemma HitInFirstParam(prev: char, p: Param, rest: string, name: string, i: nat)
    requires Printable(p) && IsToken(name) && i < |Show(p)|
    ensures HitAt(prev, Show(p) + rest, name, i)
            <==> (i == |p.sep| && p.name == name) || (Spoils(p.value, name) && i == |Show(p)| - |name| - 2)
  {
    ShowLayout(p, rest);
    if i <= |p.sep| + |p.name| + 1 {
      HitInName(prev, p, rest, name, i);
    } else {
      if HitAt(prev, Show(p) + rest, name, i) {
        HitSpoilsValue(prev, p, rest, name, i);
      }
      if Spoils(p.value, name) && i == |Show(p)| - |name| - 2 {
        SpoiltValueHits(prev, p, rest, name);
      }
    }
  }

  lemma FirstHitHere(prev: char, params: seq<Param>, name: string, i: nat)
    requires (forall p :: p in params ==> Printable(p)) && IsToken(name) && params != []
    requires FirstHit(params, name).Some? ==> i <= FirstHit(params, name).value
    requires i < |Show(params[0])|
    ensures HitAt(prev, ShowAll(params), name, i) <==> FirstHit(params, name) == Some(i)
  {
    var p := params[0];
    assert |p.sep| < |Show(p)|;
    HitInFirstParam(prev, p, ShowAll(params[1..]), name, i);
  }

  lemma FirstHitShifts(params: seq<Param>, name: string, i: nat)
    requires (forall p :: p in params ==> Printable(p)) && params != []
    requires FirstHit(params, name).Some? ==> |Show(params[0])| + i <= FirstHit(params, name).value
    ensures FirstHit(params, name) == Some(|Show(params[0])| + i) <==> FirstHit(params[1..], name) == Some(i)
    ensures FirstHit(params[1..], name).Some? ==> i <= FirstHit(params[1..], name).value
  {
    assert |params[0].sep| < |Show(params[0])|;
  }

  lemma {:induction false} FirstHitIsFirst(prev: char, params: seq<Param>, name: string, i: nat)
    requires (forall p :: p in params ==> Printable(p)) && IsToken(name)
    requires FirstHit(params, name).Some? ==> i <= FirstHit(params, name).value
    ensures HitAt(prev, ShowAll(params), name, i) <==> FirstHit(params, name) == Some(i)
    decreases |params|
  {
    if params == [] {
    } else if i < |Show(params[0])| {
      FirstHitHere(prev, params, name, i);
    } else {
      var k := i - |Show(params[0])|;
      FirstHitShifts(params, name, k);
      FirstHitIsFirst('\"', params[1..], name, k);
      HitInRest(prev, params[0], ShowAll(params[1..]), name, k);
    }
  }

  // ---------------------------------------------------------------------
  // What the search returns on a printed challenge
  // ---------------------------------------------------------------------

  function Header(scheme: string, params: seq<Param>): string {
    scheme + ShowAll(params)
  }

  /**
   What the search returns: the value of the first parameter of that name, unless an earlier value spoils the search.
   Then it is the text from that value's closing quote to the next opening one, if there is one.
   */
  function Returned(params: seq<Param>, name: string): Option<string> {
    if params == [] then None
    else if params[0].name == name then Some(params[0].value)
    else if Spoils(params[0].value, name) then
      if |params| == 1 then None else Some(params[1].sep + params[1].name + "=")
    else Returned(params[1..], name)
  }

  /** Text before `s` does not change what is read inside `s`. */
  lemma {:induction false} QuotedFromShifts(a: string, s: string, at: nat)
    requires at <= |s|
    ensures QuotedFrom(a + s, |a| + at) == QuotedFrom(s, at)
    decreases |s| - at
  {
    if at == |s| {
    } else {
      QuotedFromShifts(a, s, at + 1);
    }
  }

  /** `r` is what is read from `at`. */
  predicate ReadsAt(s: string, at: nat, r: Option<string>) {
    at <= |s| && QuotedFrom(s, at) == r
  }

  lemma ReadsAfter(a: string, s: string, at: nat, r: Option<string>)
    requires ReadsAt(s, at, r)
    ensures ReadsAt(a + s, |a| + at, r)
  {
    QuotedFromShifts(a, s, at);
  }

  lemma OpeningIsQuoted(p: Param, rest: string)
    requires Printable(p)
    ensures ReadsAt(Show(p) + rest, 0, Some(p.sep + p.name + "="))
  {
    var s, v := Show(p) + rest, p.sep + p.name + "=";
    ShowLayout(p, rest);
    QuotedRuns(s, 0, |v|);
    assert s[0..|v|] == v;
  }

  lemma ValueIsQuoted(p: Param, rest: string)
    requires Printable(p)
    ensures ReadsAt(Show(p) + rest, |p.sep| + |p.name| + 2, Some(p.value))
  {
    ValueLayout(p, rest);
    var from := |p.sep| + |p.name| + 2;
    QuotedRuns(Show(p) + rest, from, from + |p.value|);
  }

  /** What a printed list reads as from its start: up to its first quote. */
  lemma ListReads(params: seq<Param>)
    requires forall p :: p in params ==> Printable(p)
    ensures ReadsAt(ShowAll(params), 0, if params == [] then None else Some(params[0].sep + params[0].name + "="))
  {
    if params == [] {
    } else {
      assert params[0] in params;
      OpeningIsQuoted(params[0], ShowAll(params[1..]));
    }
  }

  /** A spoiling value hands on the start of the rest of the list. */
  lemma SpoiltReads(params: seq<Param>, name: string)
    requires (forall p :: p in params ==> Printable(p)) && params != []
    requires params[0].name != name && Spoils(params[0].value, name)
    ensures ReadsAt(ShowAll(params), |Show(params[0])|, Returned(params, name))
  {
    ListReads(params[1..]);
    ReadsAfter(Show(params[0]), ShowAll(params[1..]), 0, Returned(params, name));
  }

  /** Past a parameter that is neither named nor spoiling, the search reads what it reads in the rest. */
  lemma {:induction false} ReadsOn(params: seq<Param>, name: string)
    requires (forall p :: p in params ==> Printable(p)) && params != []
    requires params[0].name != name && !Spoils(params[0].value, name)
    requires FirstHit(params[1..], name).Some? ==>
               ReadsAt(ShowAll(params[1..]), FirstHit(params[1..], name).value + |name| + 2,
                       Returned(params[1..], name))
    ensures FirstHit(params, name).Some? ==>
              ReadsAt(ShowAll(params), FirstHit(params, name).value + |name| + 2, Returned(params, name))
  {
    var hit := FirstHit(params[1..], name);
    if hit.Some? {
      ReadsAfter(Show(params[0]), ShowAll(params[1..]), hit.value + |name| + 2, Returned(params[1..], name));
    }
  }

  /** What follows the first hit of a printed list is what the search returns. */
  lemma {:induction false} HitReads(params: seq<Param>, name: string)
    requires (forall p :: p in params ==> Printable(p)) && IsToken(name)
    ensures FirstHit(params, name).None? ==> Returned(params, name) == None
    ensures FirstHit(params, name).Some? ==>
              ReadsAt(ShowAll(params), FirstHit(params, name).value + |name| + 2, Returned(params, name))
  {
    if params == [] {
    } else if params[0].name == name {
      ValueIsQuoted(params[0], ShowAll(params[1..]));
    } else if Spoils(params[0].value, name) {
      SpoiltReads(params, name);
    } else {
      HitReads(params[1..], name);
      ReadsOn(params, name);
    }
  }

  lemma HeaderHits(scheme: string, params: seq<Param>, name: string, i: nat)
    requires IsToken(scheme) && IsToken(name)
    requires forall p :: p in params ==> Printable(p)
    ensures i < |scheme| ==> !ParamAt(Header(scheme, params), name, i)
    ensures ParamAt(Header(scheme, params), name, |scheme| + i)
            <==> HitAt(scheme[|scheme| - 1], ShowAll(params), name, i)
  {
    var h, s := Header(scheme, params), ShowAll(params);
    if i < |scheme| && MatchesAt(h, Prefix(name), i) {
      SchemeHasNoMatch(scheme, params, name, i);
    }
    if |scheme| + i + |Prefix(name)| <= |h| {
      assert h[|scheme| + i..|scheme| + i + |Prefix(name)|] == s[i..i + |Prefix(name)|];
    }
  }

  /** A match cannot begin inside the scheme: it would run into the separator after it. */
  lemma SchemeHasNoMatch(scheme: string, params: seq<Param>, name: string, i: nat)
    requires IsToken(scheme) && IsToken(name) && i < |scheme|
    requires forall p :: p in params ==> Printable(p)
    ensures !MatchesAt(Header(scheme, params), Prefix(name), i)
  {
    var h := Header(scheme, params);
    assert forall j :: 0 <= j < |scheme| ==> h[j] != '=' by {
      forall j | 0 <= j < |scheme| ensures h[j] != '=' {
        assert h[j] == scheme[j] && scheme[j] in scheme;
      }
    }
    if params != [] {
      assert params[0] in params;
      ShowLayout(params[0], ShowAll(params[1..]));
      assert h[|scheme|] == ShowAll(params)[0];
    }
    if MatchesAt(h, Prefix(name), i) {
      MatchLayout(h, name, i);
    }
  }

  lemma HeaderHitIsFirstHit(scheme: string, params: seq<Param>, name: string, j: nat)
    requires IsToken(scheme) && IsToken(name)
    requires forall p :: p in params ==> Printable(p)
    requires FirstHit(params, name).Some? ==> j <= |scheme| + FirstHit(params, name).value
    ensures ParamAt(Header(scheme, params), name, j)
            <==> FirstHit(params, name).Some? && j == |scheme| + FirstHit(params, name).value
  {
    if j < |scheme| {
      HeaderHits(scheme, params, name, j);
    } else {
      FirstHitIsFirst(scheme[|scheme| - 1], params, name, j - |scheme|);
      HeaderHits(scheme, params, name, j - |scheme|);
    }
  }

  /**
   On a printed challenge the search stops at the first parameter of that name or at an earlier value that spoils it,
   never at a name that only ends with the one sought.
   */
  lemma FirstHitStandsFirst(scheme: string, params: seq<Param>, name: string)
    requires IsToken(scheme) && IsToken(name)
    requires forall p :: p in params ==> Printable(p)
    ensures FirstHit(params, name).Some? ==>
              IsFirstParam(Header(scheme, params), name, |scheme| + FirstHit(params, name).value)
    ensures FirstHit(params, name).None? ==> forall j :: 0 <= j ==> !ParamAt(Header(scheme, params), name, j)
  {
    var h, hit := Header(scheme, params), FirstHit(params, name);
    forall j: nat | hit.Some? ==> j <= |scheme| + hit.value
      ensures ParamAt(h, name, j) <==> hit.Some? && j == |scheme| + hit.value
    {
      HeaderHitIsFirstHit(scheme, params, name, j);
    }
  }

  lemma ExtractedAt(header: string, name: string, r: Option<string>, i: nat, expected: Option<string>)
    requires IsExtract(header, name, r) && IsFirstParam(header, name, i)
    requires ReadsAt(header, i + |Prefix(name)|, expected)
    ensures r == expected
  {
  }

  lemma ExtractedNowhere(header: string, name: string, r: Option<string>)
    requires IsExtract(header, name, r) && forall i :: 0 <= i ==> !ParamAt(header, name, i)
    ensures r == None
  {
  }

  lemma HeaderReads(scheme: string, params: seq<Param>, name: string)
    requires (forall p :: p in params ==> Printable(p)) && IsToken(name) && FirstHit(params, name).Some?
    ensures ReadsAt(Header(scheme, params), |scheme| + FirstHit(params, name).value + |Prefix(name)|,
                    Returned(params, name))
  {
    HitReads(params, name);
    ReadsAfter(scheme, ShowAll(params), FirstHit(params, name).value + |name| + 2, Returned(params, name));
  }

  /** On every printed header the search returns just what `Returned` says. */
  lemma SearchReturns(scheme: string, params: seq<Param>, name: string, r: Option<string>)
    requires IsToken(scheme) && IsToken(name)
    requires forall p :: p in params ==> Printable(p)
    requires IsExtract(Header(scheme, params), name, r)
    ensures r == Returned(params, name)
  {
    FirstHitStandsFirst(scheme, params, name);
    if FirstHit(params, name).Some? {
      HeaderReads(scheme, params, name);
      ExtractedAt(Header(scheme, params), name, r, |scheme| + FirstHit(params, name).value, Returned(params, name));
    } else {
      HitReads(params, name);
      ExtractedNowhere(Header(scheme, params), name, r);
    }
  }

  /**
   No value spoils the search before it meets the name; or the spoiling parameter is the last; or what then
   stands before the next quote happens to be the value sought.
   */
  predicate Harmless(params: seq<Param>, name: string) {
    || params == []
    || params[0].name == name
    || (if Spoils(params[0].value, name)
        then |params| == 1 || Lookup(params[1..], name) == Some(params[1].sep + params[1].name + "=")
        else Harmless(params[1..], name))
  }

  lemma {:induction false} ReturnedIsLookupIffHarmless(params: seq<Param>, name: string)
    ensures Returned(params, name) == Lookup(params, name) <==> Harmless(params, name)
  {
    if params != [] {
      ReturnedIsLookupIffHarmless(params[1..], name);
    }
  }

  /** The search returns the header's own parameter, or its absence, exactly when no value harms it. */
  lemma SearchReturnsLookupIff(scheme: string, params: seq<Param>, name: string, r: Option<string>)
    requires IsToken(scheme) && IsToken(name)
    requires forall p :: p in params ==> Printable(p)
    requires IsExtract(Header(scheme, params), name, r)
    ensures r == Lookup(params, name) <==> Harmless(params, name)
  {
    SearchReturns(scheme, params, name, r);
    ReturnedIsLookupIffHarmless(params, name);
  }

  function SpoiltPair(name: string, value: string): seq<Param> {
    [Param(" ", "x", " a="), Param(",", name, value)]
  }

  lemma SpoiltPairHeader(name: string, value: string)
    ensures Header("S", SpoiltPair(name, value)) == "S" + " x=\" a=\"" + "," + name + "=\"" + value + "\""
  {
    var params := SpoiltPair(name, value);
    assert params[1..] == [params[1]] && [params[1]][1..] == [];
    assert ShowAll([params[1]]) == Show(params[1]) + "";
    assert Show(params[0]) == " x=\" a=\"";
  }

  lemma SpoiltPairReturns(name: string, value: string)
    ensures Returned(SpoiltPair(name, value), "a") == Some("," + name + "=")
    ensures Lookup(SpoiltPair(name, value), "a") == if name == "a" then Some(value) else None
  {
    var params := SpoiltPair(name, value);
    assert params[1..] == [params[1]] && [params[1]][1..] == [];
    assert Lookup([params[1]], "a") == if name == "a" then Some(value) else None;
    SpoilsIff(" a=", "a", "", ' ');
  }

  /** In `S x=" a=",y="z"` there is no parameter `a`, yet the search returns one. */
  lemma SearchInventsParameter(r: Option<string>)
    requires IsExtract("S" + " x=\" a=\"" + "," + "y" + "=\"" + "z" + "\"", "a", r)
    ensures r == Some("," + "y" + "=")
    ensures Lookup(SpoiltPair("y", "z"), "a") == None
  {
    SpoiltPairHeader("y", "z");
    SpoiltPairReturns("y", "z");
    SearchReturns("S", SpoiltPair("y", "z"), "a", r);
  }

  /** In `S x=" a=",a="z"` the parameter `a` is missed for the text before it. */
  lemma SearchMissesParameter(r: Option<string>)
    requires IsExtract("S" + " x=\" a=\"" + "," + "a" + "=\"" + "z" + "\"", "a", r)
    ensures r == Some("," + "a" + "=")
    ensures Lookup(SpoiltPair("a", "z"), "a") == Some("z")
  {
    SpoiltPairHeader("a", "z");
    SpoiltPairReturns("a", "z");
    SearchReturns("S", SpoiltPair("a", "z"), "a", r);
  }

  /** A value spoils the search for a name exactly when it ends in a delimiter, the name and an equals sign. */
  lemma SpoilsIff(value: string, name: string, before: string, delimiter: char)
    ensures value == before + [delimiter] + name + "=" && IsDelimiter(delimiter) ==> Spoils(value, name)
    ensures Spoils(value, name) ==>
              && '=' in value
              && IsDelimiter(value[|value| - |name| - 2])
              && value == value[..|value| - |name| - 2] + [value[|value| - |name| - 2]] + name + "="
  {
    if Spoils(value, name) {
      var n := |value| - |name| - 2;
      assert value[n + 1..][|name|] == '=';
      assert value == value[..n] + [value[n]] + value[n + 1..];
    }
    if value == before + [delimiter] + name + "=" && IsDelimiter(delimiter) {
      assert value[|value| - |name| - 1..] == name + "=";
    }
  }

  /** Values without an equals sign never harm a search. */
  lemma {:induction false} NoEqualsHarmless(params: seq<Param>, name: string)
    requires forall p :: p in params ==> '=' !in p.value
    ensures Harmless(params, name)
  {
    if params != [] {
      SpoilsIff(params[0].value, name, "", ' ');
      NoEqualsHarmless(params[1..], name);
    }
  }

  // ---------------------------------------------------------------------
  // The whole challenge
  // ---------------------------------------------------------------------

  datatype StepUp = StepUp(acrValues: Option<string>, maxAge: Option<nat>)

  const U64_MAX: nat := 0xFFFF_FFFF_FFFF_FFFF
  const STEP_UP_ERROR := "insufficient_user_authentication"

  predicate IsDigit(c: char) {
    48 <= c as int <= 57
  }

  function Decimal(s: string): nat
    requires forall c :: c in s ==> IsDigit(c)
  {
    if s == [] then 0
    else
      assert IsDigit(s[|s| - 1]);
      Decimal(s[..|s| - 1]) * 10 + (s[|s| - 1] as int - 48)
  }

  /** The decimal digits of a number, most significant first. */
  function Digits(n: nat): string {
    if n < 10 then [(48 + n) as char] else Digits(n / 10) + [(48 + n % 10) as char]
  }

  /** Reading back the printed digits of a number gives the number. */
  lemma {:induction false} DigitsReadBack(n: nat)
    ensures Digits(n) != [] && forall c :: c in Digits(n) ==> IsDigit(c)
    ensures Decimal(Digits(n)) == n
  {
    if n < 10 {
      assert Digits(n)[..0] == [];
    } else {
      DigitsReadBack(n / 10);
      assert Digits(n)[..|Digits(n)| - 1] == Digits(n / 10);
    }
  }

  lemma DigitsStartWithDigit(n: nat)
    ensures Digits(n) != [] && Digits(n)[0] != '+'
  {
    DigitsReadBack(n);
    assert Digits(n)[0] in Digits(n);
  }

  /** A printed number, with or without a plus, is read as itself exactly when it fits in 64 bits. */
  lemma AgeReadsBack(n: nat)
    ensures ParseU64(Digits(n)) == ParseU64("+" + Digits(n)) == if n < 0x1_0000_0000_0000_0000 then Some(n) else None
  {
    DigitsReadBack(n);
    DigitsStartWithDigit(n);
    assert ("+" + Digits(n))[1..] == Digits(n);
  }

  /** Text that is no digits after an optional plus is no number. */
  lemma OnlyDigitsAreRead(s: string)
    ensures ParseU64(s).Some? ==>
              var digits := if s != [] && s[0] == '+' then s[1..] else s;
              digits != [] && forall c :: c in digits ==> '0' <= c <= '9'
  {
    var digits := if s != [] && s[0] == '+' then s[1..] else s;
    if ParseU64(s).Some? {
      forall c | c in digits ensures '0' <= c <= '9' {
        assert IsDigit(c);
      }
    }
  }

  /** Rust's `parse::<u64>`: an optional plus, then at least one digit, and no overflow. */
  function ParseU64(s: string): Option<nat> {
    var digits := if s != [] && s[0] == '+' then s[1..] else s;
    if digits == [] || (exists c :: c in digits && !IsDigit(c)) || Decimal(digits) > U64_MAX then None
    else Some(Decimal(digits))
  }

  predicate StartsWith(s: string, prefix: string) {
    |prefix| <= |s| && s[..|prefix|] == prefix
  }

  lemma SchemeThenBlank(header: string, scheme: string)
    ensures HasScheme(header, scheme) <==> StartsWith(header, scheme + " ")
  {
    if |scheme| < |header| {
      assert header[..|scheme| + 1] == header[..|scheme|] + [header[|scheme|]];
    }
  }

  predicate HasScheme(header: string, scheme: string) {
    |scheme| < |header| && header[..|scheme|] == scheme && header[|scheme|] == ' '
  }

  predicate Contains(s: string, pattern: string) {
    exists i :: 0 <= i <= |s| && MatchesAt(s, pattern, i)
  }

  /** Whatever list the header was printed from, `r` is what the search makes of that list. */
  ghost predicate Reads(header: string, name: string, r: Option<string>) {
    forall scheme, params ::
      && header == Header(scheme, params) && IsToken(scheme)
      && (forall p :: p in params ==> Printable(p)) ==>
      r == Returned(params, name) && (r == Lookup(params, name) <==> Harmless(params, name))
  }

  lemma ExtractReads(header: string, name: string, r: Option<string>)
    requires IsToken(name) && IsExtract(header, name, r)
    ensures Reads(header, name, r)
  {
    forall scheme, params |
      && header == Header(scheme, params) && IsToken(scheme)
      && (forall p :: p in params ==> Printable(p))
      ensures r == Returned(params, name) && (r == Lookup(params, name) <==> Harmless(params, name))
    {
      SearchReturns(scheme, params, name, r);
      ReturnedIsLookupIffHarmless(params, name);
    }
  }

  /** The scheme and the error text anywhere in the header decide; the error parameter itself is not looked up. */
  method ParseWwwAuthenticate(header: string) returns (r: Option<StepUp>)
    ensures r.Some? <==>
            && (StartsWith(header, "Bearer ") || StartsWith(header, "DPoP "))
            && Contains(header, "insufficient_user_authentication")
    ensures r.Some? ==> Reads(header, "acr_values", r.value.acrValues)
    ensures r.Some? ==> exists age ::
              Reads(header, "max_age", age) && r.value.maxAge == if age.None? then None else ParseU64(age.value)
  {
    SchemeThenBlank(header, "Bearer");
    SchemeThenBlank(header, "DPoP");
    assert "Bearer" + " " == "Bearer " && "DPoP" + " " == "DPoP ";
    if !HasScheme(header, "Bearer") && !HasScheme(header, "DPoP") {
      return None;
    }
    var found := FindFrom(header, STEP_UP_ERROR, 0);
    if found.None? {
      return None;
    }
    assert Contains(header, STEP_UP_ERROR);
    var acr := ExtractParam(header, "acr_values");
    var age := ExtractParam(header, "max_age");
    ExtractReads(header, "acr_values", acr);
    ExtractReads(header, "max_age", age);
    return Some(StepUp(acr, if age.None? then None else ParseU64(age.value)));
  }
}
