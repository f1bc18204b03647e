/**
 Which relying-party IDs a server may name, and which URLs are on it.

 The code compares strings by suffix and prefix; the meaning is in the parts: dot-separated labels of a host,
 slash-separated segments of a path. URLs come parsed; `None` is a string that does not parse.
 */
module ServerUrl {
  import opened Options

  // ---------------------------------------------------------------------
  // Parts of a string
  // ---------------------------------------------------------------------

  /** Put a character at the front of the first part. */
  function Push(ch: char, parts: seq<string>): (r: seq<string>)
    requires parts != []
    ensures |r| == |parts|
  {
    [[ch] + parts[0]] + parts[1..]
  }

  /** The parts of `s` between occurrences of `c`. */
  function Split(s: string, c: char): (parts: seq<string>)
    ensures parts != []
  {
    if s == [] then [""] else if s[0] == c then [""] + Split(s[1..], c) else Push(s[0], Split(s[1..], c))
  }

  function Join(parts: seq<string>, c: char): string
    requires parts != []
  {
    if |parts| == 1 then parts[0] else parts[0] + [c] + Join(parts[1..], c)
  }

  lemma JoinPush(ch: char, parts: seq<string>, c: char)
    requires parts != []
    ensures Join(Push(ch, parts), c) == [ch] + Join(parts, c)
  {
    assert Push(ch, parts)[1..] == parts[1..];
    if |parts| > 1 {
      assert [ch] + (parts[0] + [c] + Join(parts[1..], c)) == [ch] + parts[0] + [c] + Join(parts[1..], c);
    }
  }

  lemma {:induction false} JoinSplit(s: string, c: char)
    ensures Join(Split(s, c), c) == s
  {
    if s != [] {
      JoinSplit(s[1..], c);
      var rest := Split(s[1..], c);
      if s[0] == c {
        assert ([""] + rest)[1..] == rest;
        assert "" + [c] + s[1..] == s;
      } else {
        JoinPush(s[0], rest, c);
      }
    }
  }

  lemma {:induction false} SplitAround(a: string, c: char, b: string)
    ensures Split(a + [c] + b, c) == Split(a, c) + Split(b, c)
  {
    var s := a + [c] + b;
    if a == [] {
      assert s[0] == c && s[1..] == b;
    } else {
      assert s[0] == a[0] && s[1..] == a[1..] + [c] + b;
      SplitAround(a[1..], c, b);
      var init, tail := Split(a[1..], c), Split(b, c);
      assert Split(s[1..], c) == init + tail;
      if a[0] == c {
        assert [""] + (init + tail) == [""] + init + tail;
      } else {
        assert Push(a[0], init + tail) == Push(a[0], init) + tail;
      }
    }
  }

  lemma {:induction false} JoinAppend(a: seq<string>, b: seq<string>, c: char)
    requires a != [] && b != []
    ensures Join(a + b, c) == Join(a, c) + [c] + Join(b, c)
  {
    assert (a + b)[1..] == a[1..] + b;
    if |a| == 1 {
      assert a[1..] + b == b;
    } else {
      JoinAppend(a[1..], b, c);
      assert a[0] + [c] + (Join(a[1..], c) + [c] + Join(b, c)) == a[0] + [c] + Join(a[1..], c) + [c] + Join(b, c);
    }
  }

  predicate EndsAfter(s: string, t: string, c: char) {
    |t| < |s| && s[|s| - |t|..] == t && s[|s| - |t| - 1] == c
  }

  predicate StartsBefore(s: string, t: string, c: char) {
    |t| < |s| && s[..|t|] == t && s[|t|] == c
  }

  /** Parts that end `s` come from a string that is `s` or follows a separator in it. */
  lemma SuffixPartsEnd(head: seq<string>, s: string, t: string, c: char)
    requires Split(s, c) == head + Split(t, c)
    ensures s == t || EndsAfter(s, t, c)
  {
    JoinSplit(s, c);
    JoinSplit(t, c);
    if head == [] {
      assert head + Split(t, c) == Split(t, c);
    } else {
      JoinAppend(head, Split(t, c), c);
      assert s == Join(head, c) + [c] + t;
    }
  }

  lemma PrefixPartsStart(s: string, t: string, tail: seq<string>, c: char)
    requires Split(s, c) == Split(t, c) + tail
    ensures s == t || StartsBefore(s, t, c)
  {
    JoinSplit(s, c);
    JoinSplit(t, c);
    if tail == [] {
      assert Split(t, c) + tail == Split(t, c);
    } else {
      JoinAppend(Split(t, c), tail, c);
      assert s == t + [c] + Join(tail, c);
    }
  }

  /** The parts of `t` end those of `s` exactly when `t` is `s` or follows a separator in it. */
  lemma SuffixOfParts(s: string, t: string, c: char)
    ensures IsSuffix(Split(t, c), Split(s, c)) <==> s == t || EndsAfter(s, t, c)
  {
    var ss, ts := Split(s, c), Split(t, c);
    if EndsAfter(s, t, c) {
      var head := s[..|s| - |t| - 1];
      assert s == head + [c] + t;
      SplitAround(head, c, t);
    }
    if IsSuffix(ts, ss) {
      assert ss == ss[..|ss| - |ts|] + ts;
      SuffixPartsEnd(ss[..|ss| - |ts|], s, t, c);
    }
  }

  /** The parts of `t` begin those of `s` exactly when `t` is `s` or is followed by a separator in it. */
  lemma PrefixOfParts(s: string, t: string, c: char)
    ensures Split(t, c) <= Split(s, c) <==> s == t || StartsBefore(s, t, c)
  {
    var ss, ts := Split(s, c), Split(t, c);
    if StartsBefore(s, t, c) {
      assert s == t + [c] + s[|t| + 1..];
      SplitAround(t, c, s[|t| + 1..]);
    }
    if ts <= ss {
      assert ss == ts + ss[|ts|..];
      PrefixPartsStart(s, t, ss[|ts|..], c);
    }
  }

  predicate IsSuffix<T(==)>(a: seq<T>, b: seq<T>) {
    |a| <= |b| && b[|b| - |a|..] == a
  }

  // ---------------------------------------------------------------------
  // Relying-party IDs
  // ---------------------------------------------------------------------

  function LowerChar(c: char): char {
    if 'A' <= c <= 'Z' then (c as int + 32) as char else c
  }

  /** ASCII lower case. */
  function Lower(s: string): string {
    seq(|s|, i requires 0 <= i < |s| => LowerChar(s[i]))
  }

  function LowerAll(parts: seq<string>): seq<string> {
    seq(|parts|, i requires 0 <= i < |parts| => Lower(parts[i]))
  }

  predicate AcceptsRpId(host: Option<string>, rpId: string) {
    if rpId == "" || host.None? then false
    else
      var h, r := Lower(host.value), Lower(rpId);
      || h == r
      || (&& |r| <= |h| && h[|h| - |r|..] == r
          && var rest := h[..|h| - |r|]; rest != "" && rest[|rest| - 1] == '.')
  }

  /** Two characters are equal ignoring case when they are equal, or are one ASCII letter in its two cases. */
  predicate SameLetter(a: char, b: char) {
    || a == b
    || ('A' <= a <= 'Z' && b as int == a as int + 32)
    || ('A' <= b <= 'Z' && a as int == b as int + 32)
  }

  lemma LowerIgnoresCase(a: string, b: string)
    ensures Lower(a) == Lower(b) <==> |a| == |b| && forall i :: 0 <= i < |a| ==> SameLetter(a[i], b[i])
  {
    if |a| == |b| {
      forall i | 0 <= i < |a| ensures Lower(a)[i] == Lower(b)[i] <==> SameLetter(a[i], b[i]) {
      }
      if Lower(a) != Lower(b) {
        var i :| 0 <= i < |a| && Lower(a)[i] != Lower(b)[i];
        assert !SameLetter(a[i], b[i]);
      }
    } else {
      assert |Lower(a)| != |Lower(b)|;
    }
  }

  lemma LowerPush(ch: char, parts: seq<string>)
    requires parts != []
    ensures LowerAll(Push(ch, parts)) == Push(LowerChar(ch), LowerAll(parts))
  {
    assert Lower([ch] + parts[0]) == [LowerChar(ch)] + Lower(parts[0]);
  }

  lemma LowerAllCons(part: string, parts: seq<string>)
    ensures LowerAll([part] + parts) == [Lower(part)] + LowerAll(parts)
  {
  }

  lemma LowerCons(s: string)
    requires s != []
    ensures Lower(s) != [] && Lower(s)[0] == LowerChar(s[0]) && Lower(s)[1..] == Lower(s[1..])
    ensures Lower(s)[0] == '.' <==> s[0] == '.'
  {
  }

  lemma {:induction false} SplitLower(s: string)
    ensures Split(Lower(s), '.') == LowerAll(Split(s, '.'))
  {
    if s == [] {
      assert LowerAll([""]) == [""];
    } else {
      var rest := Split(s[1..], '.');
      SplitLower(s[1..]);
      LowerCons(s);
      if s[0] == '.' {
        assert Split(Lower(s), '.') == [""] + LowerAll(rest);
        LowerAllCons("", rest);
        assert Lower("") == "";
      } else {
        assert Split(Lower(s), '.') == Push(LowerChar(s[0]), LowerAll(rest));
        LowerPush(s[0], rest);
      }
    }
  }

  lemma AcceptsIffEnds(host: string, rpId: string)
    ensures AcceptsRpId(Some(host), rpId)
            <==> rpId != "" && (Lower(host) == Lower(rpId) || EndsAfter(Lower(host), Lower(rpId), '.'))
  {
  }

  /** An ID is accepted exactly when its labels are the last labels of the host, ignoring ASCII case. */
  lemma AcceptsIffLabelSuffix(host: string, rpId: string)
    ensures AcceptsRpId(Some(host), rpId)
            <==> rpId != "" && IsSuffix(LowerAll(Split(rpId, '.')), LowerAll(Split(host, '.')))
  {
    var labels, idLabels := LowerAll(Split(host, '.')), LowerAll(Split(rpId, '.'));
    assert labels == Split(Lower(host), '.') by { SplitLower(host); }
    assert idLabels == Split(Lower(rpId), '.') by { SplitLower(rpId); }
    SuffixOfParts(Lower(host), Lower(rpId), '.');
    AcceptsIffEnds(host, rpId);
  }

  /** A parent's parent is a parent: acceptance passes from host to ID to ID. */
  lemma AcceptanceIsTransitive(host: string, mid: string, rpId: string)
    requires AcceptsRpId(Some(host), mid) && AcceptsRpId(Some(mid), rpId)
    ensures AcceptsRpId(Some(host), rpId)
  {
    AcceptsIffLabelSuffix(host, mid);
    AcceptsIffLabelSuffix(mid, rpId);
    AcceptsIffLabelSuffix(host, rpId);
    var h, m, r := LowerAll(Split(host, '.')), LowerAll(Split(mid, '.')), LowerAll(Split(rpId, '.'));
    assert h[|h| - |m|..][|m| - |r|..] == h[|h| - |r|..];
  }

  // ---------------------------------------------------------------------
  // URLs on a server
  // ---------------------------------------------------------------------

  datatype Url = Url(scheme: string, host: Option<string>, port: Option<nat>, path: string)

  function EffectivePort(u: Url): Option<nat> {
    if u.port.Some? then u.port
    else if u.scheme == "https" || u.scheme == "wss" then Some(443)
    else if u.scheme == "http" || u.scheme == "ws" then Some(80)
    else if u.scheme == "ftp" then Some(21)
    else None
  }

  function TrimSlashes(s: string): string {
    if s != "" && s[|s| - 1] == '/' then TrimSlashes(s[..|s| - 1]) else s
  }

  predicate Contains(base: Option<Url>, other: Option<Url>) {
    && base.Some? && other.Some?
    && base.value.scheme == other.value.scheme
    && base.value.host == other.value.host
    && EffectivePort(base.value) == EffectivePort(other.value)
    && var basePath, path := TrimSlashes(base.value.path), other.value.path;
       || path == basePath
       || (|basePath| < |path| && path[..|basePath|] == basePath && path[|basePath|] == '/')
  }

  /** A URL is on the server exactly when scheme, host and port agree and the base's segments begin its own. */
  lemma ContainsIffSegmentPrefix(base: Url, other: Url)
    ensures Contains(Some(base), Some(other)) <==>
            && base.scheme == other.scheme && base.host == other.host
            && EffectivePort(base) == EffectivePort(other)
            && Split(TrimSlashes(base.path), '/') <= Split(other.path, '/')
  {
    PrefixOfParts(other.path, TrimSlashes(base.path), '/');
  }

  /** Each scheme's usual port, which may be written or left out. */
  predicate IsUsualPort(scheme: string, port: nat) {
    || ((scheme == "https" || scheme == "wss") && port == 443)
    || ((scheme == "http" || scheme == "ws") && port == 80)
    || (scheme == "ftp" && port == 21)
  }

  /** A path is at or below itself, trailing slashes or not. */
  lemma PathBelowItself(path: string)
    ensures var base := TrimSlashes(path);
            path == base || (|base| < |path| && path[..|base|] == base && path[|base|] == '/')
  {
    var base := TrimSlashes(path);
    var n := TrimRemovesSlashes(path);
    if n == 0 {
      assert base + Slashes(0) == base;
    } else {
      assert path == base + Slashes(n);
      assert path[..|base|] == base && path[|base|] == Slashes(n)[0];
    }
  }

  lemma UsualPortIsEffective(u: Url, port: nat)
    ensures EffectivePort(u.(port := None)) == EffectivePort(u.(port := Some(port))) <==> IsUsualPort(u.scheme, port)
  {
  }

  /** Leaving out a port is the same as writing the scheme's usual one, and as writing no other. */
  lemma UsualPortMayBeLeftOut(u: Url, port: nat)
    ensures Contains(Some(u.(port := None)), Some(u.(port := Some(port)))) <==> IsUsualPort(u.scheme, port)
    ensures Contains(Some(u.(port := Some(port))), Some(u.(port := None))) <==> IsUsualPort(u.scheme, port)
  {
    PathBelowItself(u.path);
    UsualPortIsEffective(u, port);
  }

  /** URLs that write different ports are never on one server. */
  lemma WrittenPortsMustAgree(base: Url, other: Url)
    requires base.port.Some? && other.port.Some? && Contains(Some(base), Some(other))
    ensures base.port == other.port
  {
  }

  function Slashes(n: nat): string {
    seq(n, _ => '/')
  }

  lemma {:induction false} TrimRemovesSlashes(s: string) returns (n: nat)
    ensures s == TrimSlashes(s) + Slashes(n)
    ensures TrimSlashes(s) == "" || TrimSlashes(s)[|TrimSlashes(s)| - 1] != '/'
  {
    if s != "" && s[|s| - 1] == '/' {
      n := TrimRemovesSlashes(s[..|s| - 1]);
      assert Slashes(n) + "/" == Slashes(n + 1);
      n := n + 1;
    } else {
      n := 0;
    }
  }

  lemma {:induction false} TrimUndoesSlashes(url: string, n: nat)
    requires url == "" || url[|url| - 1] != '/'
    ensures TrimSlashes(url + Slashes(n)) == url
  {
    if n == 0 {
      assert url + Slashes(0) == url;
    } else {
      assert (url + Slashes(n))[..|url| + n - 1] == url + Slashes(n - 1);
      TrimUndoesSlashes(url, n - 1);
    }
  }

  /** `ServerUrl::parse` normalizes by trimming; `names` compares after trimming. */
  predicate Names(url: string, raw: string) {
    TrimSlashes(raw) == url
  }

  /** A stored URL names a normalized server URL exactly when it is that URL and some number of slashes. */
  lemma NamesIffTrailingSlashes(url: string, raw: string)
    requires url == "" || url[|url| - 1] != '/'
    ensures Names(url, raw) <==> exists n: nat :: raw == url + Slashes(n)
  {
    var n := TrimRemovesSlashes(raw);
    if Names(url, raw) {
      assert raw == url + Slashes(n);
    }
    if m: nat :| raw == url + Slashes(m) {
      TrimUndoesSlashes(url, m);
    }
  }

  /** The last part is empty exactly at the empty string and after a separator. */
  lemma {:induction false} LastPart(s: string, c: char)
    ensures var parts := Split(s, c); parts[|parts| - 1] == "" <==> s == "" || s[|s| - 1] == c
  {
    if s != "" {
      LastPart(s[1..], c);
    }
  }

  /** Trailing slashes add only empty segments. */
  lemma {:induction false} SplitTrailingSlashes(s: string, n: nat)
    ensures var parts, more := Split(s, '/'), Split(s + Slashes(n), '/');
            && parts <= more
            && forall i :: |parts| <= i < |more| ==> more[i] == ""
  {
    if n == 0 {
      assert s + Slashes(0) == s;
    } else {
      SplitTrailingSlashes(s, n - 1);
      var longer := s + Slashes(n - 1);
      assert s + Slashes(n) == longer + ['/'] + "";
      SplitAround(longer, '/', "");
    }
  }

  /** A server's URLs are closed under containment: what is on a URL of the server is on the server. */
  lemma ContainsIsTransitive(a: Url, b: Url, c: Url)
    requires Contains(Some(a), Some(b)) && Contains(Some(b), Some(c))
    ensures Contains(Some(a), Some(c))
  {
    ContainsIffSegmentPrefix(a, b);
    ContainsIffSegmentPrefix(b, c);
    ContainsIffSegmentPrefix(a, c);
    var base, mid := TrimSlashes(a.path), TrimSlashes(b.path);
    var _ := TrimRemovesSlashes(a.path);
    var n := TrimRemovesSlashes(b.path);
    SplitTrailingSlashes(mid, n);
    LastPart(base, '/');
    assert |Split(base, '/')| <= |Split(mid, '/')|;
  }
}
