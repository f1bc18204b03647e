/**
 The login kept in the configuration file, and what the commands that rewrite it do to it.

 The file holds one entry for each host key. Every command loads the file, edits its copy and saves it whole: a
 login sets URL and token, registering a client sets the URL alone, a logout sets the URL and clears the token.
 A file is described by the file it began as and the edits it was built by.
 */
module SavedLogin {
  import opened Options
  import opened Config
  import ServerUrl

  datatype Edit =
    | Login(token: string, url: string)
    | UrlOnly(url: string)
    | Logout(url: string)
    | Unrelated

  const NO_SERVERS := Servers(None, map[])

  function Edited(hostOf: HostOf, s: Servers, e: Edit): Servers {
    match e
    case Login(token, url) => WithToken(WithServerUrl(hostOf, s, url), Some(token))
    case UrlOnly(url) => WithServerUrl(hostOf, s, url)
    case Logout(url) => WithToken(WithServerUrl(hostOf, s, url), None)
    case Unrelated => s
  }

  /** The file after these edits, each made to the result of the one before. */
  function Built(hostOf: HostOf, start: Servers, edits: seq<Edit>): Servers {
    if edits == [] then start
    else Edited(hostOf, Built(hostOf, start, edits[..|edits| - 1]), edits[|edits| - 1])
  }

  predicate SetsToken(e: Edit) {
    e.Login? || e.Logout?
  }

  predicate SetsUrl(hostOf: HostOf, e: Edit, h: string) {
    !e.Unrelated? && hostOf(e.url) == Some(h)
  }

  /** The entry that is current once an edit has named its server. */
  function TargetOf(hostOf: HostOf, s: Servers, e: Edit): Option<string> {
    if e.Unrelated? || hostOf(e.url).None? then s.current else hostOf(e.url)
  }

  function Target(hostOf: HostOf, start: Servers, edits: seq<Edit>, i: nat): Option<string>
    requires i < |edits|
  {
    TargetOf(hostOf, Built(hostOf, start, edits[..i]), edits[i])
  }

  /** The URL last set on an entry. */
  function LastUrl(hostOf: HostOf, edits: seq<Edit>, h: string): Option<string> {
    if edits == [] then None
    else if SetsUrl(hostOf, edits[|edits| - 1], h) then Some(edits[|edits| - 1].url)
    else LastUrl(hostOf, edits[..|edits| - 1], h)
  }

  /** No edit from `from` on sets or clears the token of entry `h`. */
  ghost predicate TokenKeptFrom(hostOf: HostOf, start: Servers, edits: seq<Edit>, h: string, from: nat) {
    forall j :: from <= j < |edits| && SetsToken(edits[j]) ==> Target(hostOf, start, edits, j) != Some(h)
  }

  /**
   Where the token of entry `h` comes from: login `origin` among the edits, or with no origin the file it all
   began with. Nothing has set or cleared that token since.
   */
  ghost predicate IsOrigin(hostOf: HostOf, start: Servers, edits: seq<Edit>, h: string, token: string,
                           origin: Option<nat>)
  {
    match origin
    case Some(i) =>
      && i < |edits| && edits[i].Login? && edits[i].token == token && Target(hostOf, start, edits, i) == Some(h)
      && TokenKeptFrom(hostOf, start, edits, h, i + 1)
    case None =>
      && h in start.entries && start.entries[h].token == Some(token)
      && TokenKeptFrom(hostOf, start, edits, h, 0)
  }

  /** What one edit does to one entry. */
  lemma EditedEntry(hostOf: HostOf, s: Servers, e: Edit, h: string)
    ensures var s' := Edited(hostOf, s, e);
            && (h in s'.entries <==> h in s.entries || SetsUrl(hostOf, e, h))
            && (h in s'.entries ==>
                  && s'.entries[h].serverUrl == (if SetsUrl(hostOf, e, h) then e.url else s.entries[h].serverUrl)
                  && s'.entries[h].token ==
                     if SetsToken(e) && TargetOf(hostOf, s, e) == Some(h)
                     then (if e.Login? then Some(e.token) else None)
                     else if h in s.entries then s.entries[h].token else None)
  {
  }

  /** An entry holds the URL last set on it, or else the one it began with. */
  lemma {:induction false} EntryUrl(hostOf: HostOf, start: Servers, edits: seq<Edit>, h: string)
    ensures var s, last := Built(hostOf, start, edits), LastUrl(hostOf, edits, h);
            && (h in s.entries <==> last.Some? || h in start.entries)
            && (h in s.entries ==>
                  s.entries[h].serverUrl == if last.Some? then last.value else start.entries[h].serverUrl)
  {
    if edits != [] {
      var init := edits[..|edits| - 1];
      EntryUrl(hostOf, start, init, h);
      EditedEntry(hostOf, Built(hostOf, start, init), edits[|edits| - 1], h);
    }
  }

  lemma KeptFromPrefix(hostOf: HostOf, start: Servers, edits: seq<Edit>, h: string, from: nat)
    requires edits != [] && TokenKeptFrom(hostOf, start, edits[..|edits| - 1], h, from)
    requires SetsToken(edits[|edits| - 1]) ==> Target(hostOf, start, edits, |edits| - 1) != Some(h)
    ensures TokenKeptFrom(hostOf, start, edits, h, from)
  {
    var init := edits[..|edits| - 1];
    forall j | from <= j < |edits| && SetsToken(edits[j]) ensures Target(hostOf, start, edits, j) != Some(h) {
      if j < |init| {
        assert init[..j] == edits[..j];
        assert Target(hostOf, start, init, j) == Target(hostOf, start, edits, j);
      }
    }
  }

  /** A token in the file was put there by the login that last touched its entry, or was there from the start. */
  lemma {:induction false} EntryToken(hostOf: HostOf, start: Servers, edits: seq<Edit>, h: string)
    returns (origin: Option<nat>)
    requires var s := Built(hostOf, start, edits); h in s.entries && s.entries[h].token.Some?
    ensures IsOrigin(hostOf, start, edits, h, Built(hostOf, start, edits).entries[h].token.value, origin)
  {
    if edits == [] {
      origin := None;
    } else {
      var n := |edits| - 1;
      var init, e := edits[..n], edits[n];
      var before := Built(hostOf, start, init);
      EditedEntry(hostOf, before, e, h);
      if SetsToken(e) && TargetOf(hostOf, before, e) == Some(h) {
        origin := Some(n);
      } else {
        origin := EntryToken(hostOf, start, init, h);
        KeptFromPrefix(hostOf, start, edits, h, if origin.Some? then origin.value + 1 else 0);
        if origin.Some? {
          assert init[..origin.value] == edits[..origin.value];
        }
      }
    }
  }

  /** Once an entry's token has its origin, only URL-only saves set that entry's URL. */
  lemma OnlyUrlSavesFollow(hostOf: HostOf, start: Servers, edits: seq<Edit>, h: string, from: nat, j: nat)
    requires TokenKeptFrom(hostOf, start, edits, h, from)
    requires from <= j < |edits| && SetsUrl(hostOf, edits[j], h)
    ensures edits[j].UrlOnly?
  {
    assert Target(hostOf, start, edits, j) == Some(h);
  }

  /** The URL a token came with. */
  function OriginUrl(start: Servers, edits: seq<Edit>, h: string, origin: Option<nat>): string
    requires match origin case Some(i) => i < |edits| && edits[i].Login? case None => h in start.entries
  {
    if origin.Some? then edits[origin.value].url else ServerUrl.TrimSlashes(start.entries[h].serverUrl)
  }

  /** The login's URL is the entry's own right after it: it names the entry's host, or the entry had that URL before. */
  predicate LoginUrlTaken(hostOf: HostOf, start: Servers, edits: seq<Edit>, h: string, i: nat)
    requires i < |edits| && edits[i].Login?
  {
    || SetsUrl(hostOf, edits[i], h)
    || (var before := Built(hostOf, start, edits[..i]).entries;
        h in before && ServerUrl.TrimSlashes(before[h].serverUrl) == edits[i].url)
  }

  /** The token's own URL was the entry's, and the last URL saved on the entry since, if any, is that URL again. */
  predicate UrlStands(hostOf: HostOf, start: Servers, edits: seq<Edit>, h: string, origin: Option<nat>)
    requires match origin case Some(i) => i < |edits| && edits[i].Login? case None => h in start.entries
  {
    && (origin.Some? ==> LoginUrlTaken(hostOf, start, edits, h, origin.value))
    && var later := LastUrl(hostOf, edits[if origin.Some? then origin.value + 1 else 0..], h);
       later.None? || later.value == OriginUrl(start, edits, h, origin)
  }

  lemma {:induction false} LastUrlSplits(hostOf: HostOf, edits: seq<Edit>, h: string, i: nat)
    requires i <= |edits|
    ensures LastUrl(hostOf, edits, h) ==
            if LastUrl(hostOf, edits[i..], h).Some? then LastUrl(hostOf, edits[i..], h)
            else LastUrl(hostOf, edits[..i], h)
  {
    if i == |edits| {
      assert edits[..i] == edits;
    } else {
      var init := edits[..|edits| - 1];
      LastUrlSplits(hostOf, init, h, i);
      assert init[..i] == edits[..i];
      assert edits[i..][..|edits| - i - 1] == init[i..];
    }
  }

  /** Commands save server URLs without trailing slashes. */
  ghost predicate Trimmed(edits: seq<Edit>) {
    forall e :: e in edits && !e.Unrelated? ==> ServerUrl.TrimSlashes(e.url) == e.url
  }

  lemma {:induction false} LastUrlIsTrimmed(hostOf: HostOf, edits: seq<Edit>, h: string)
    requires Trimmed(edits)
    ensures var last := LastUrl(hostOf, edits, h);
            last.Some? ==> hostOf(last.value) == Some(h) && ServerUrl.TrimSlashes(last.value) == last.value
  {
    if edits != [] {
      LastUrlIsTrimmed(hostOf, edits[..|edits| - 1], h);
    }
  }

  /** The entry's URL right after the edit of a login. */
  lemma UrlAfterLogin(hostOf: HostOf, start: Servers, edits: seq<Edit>, h: string, i: nat)
    requires i < |edits| && edits[i].Login? && Trimmed(edits) && h in Built(hostOf, start, edits[..i + 1]).entries
    ensures ServerUrl.TrimSlashes(Built(hostOf, start, edits[..i + 1]).entries[h].serverUrl) == edits[i].url
            <==> LoginUrlTaken(hostOf, start, edits, h, i)
  {
    assert edits[..i + 1][..i] == edits[..i];
    EditedEntry(hostOf, Built(hostOf, start, edits[..i]), edits[i], h);
  }

  /** The entry pairs a token with the URL it came with exactly when that URL stands. */
  lemma PairStandsIff(hostOf: HostOf, start: Servers, edits: seq<Edit>, h: string, token: string, origin: Option<nat>)
    requires IsOrigin(hostOf, start, edits, h, token, origin) && Trimmed(edits)
    requires h in Built(hostOf, start, edits).entries
    ensures ServerUrl.TrimSlashes(Built(hostOf, start, edits).entries[h].serverUrl)
              == OriginUrl(start, edits, h, origin)
            <==> UrlStands(hostOf, start, edits, h, origin)
  {
    var from := if origin.Some? then origin.value + 1 else 0;
    var later := LastUrl(hostOf, edits[from..], h);
    EntryUrl(hostOf, start, edits, h);
    EntryUrl(hostOf, start, edits[..from], h);
    LastUrlSplits(hostOf, edits, h, from);
    LastUrlIsTrimmed(hostOf, edits[from..], h);
    if later.None? {
      assert Built(hostOf, start, edits[..from]).entries[h].serverUrl
          == Built(hostOf, start, edits).entries[h].serverUrl;
    }
    if origin.Some? && h in Built(hostOf, start, edits[..from]).entries {
      UrlAfterLogin(hostOf, start, edits, h, origin.value);
    }
  }
}
