/** The cookies of one login, keyed by the origin that set them: a vector of origins with
    swap-remove, against a map from origin to lines. */
module CookieJar {
  import opened Common
  import opened Text
  import opened Urls

  type Lines = seq<string>
  type Stored = map<Origin, Lines>

  /** A line lasts until its fifth field says, in seconds; a line with zero there never expires. */
  predicate Unexpired(line: string, now: nat) {
    var fields := Split(line, '\t');
    |fields| > 4 &&
    match ParseUsize(fields[4])
    case Some(expiry) => expiry == 0 || expiry > now
    case None => false
  }

  /** Whether `host` is `domain` or below it, ignoring ASCII case. */
  predicate DomainMatches(host: string, domain: string) {
    if domain == "" then false
    else if EqualIgnoringCase(host, domain) then true
    else if |host| < |domain| + 1 then false
    else
      var split := |host| - (|domain| + 1);
      host[split] == '.' && EqualIgnoringCase(host[split + 1..], domain)
  }

  function WithoutPrefix(s: string, prefix: string): string {
    match StripPrefix(s, prefix) case Some(rest) => rest case None => s
  }

  /** A line is kept from a response of `host` when it has seven fields with a name, has not expired
      and its domain covers the host. */
  predicate Usable(line: string, host: string, now: nat) {
    var fields := Split(line, '\t');
    && |fields| == 7
    && fields[5] != ""
    && Unexpired(line, now)
    && DomainMatches(host, WithoutPrefix(WithoutPrefix(fields[0], "#HttpOnly_"), "."))
  }

  function TrimStartOf(s: string, c: char): string {
    if s != "" && s[0] == c then TrimStartOf(s[1..], c) else s
  }

  /** A URL's host as a cookie line writes it: an IPv6 address without its brackets. */
  function CookieHost(host: string): string {
    TrimEndOf(TrimStartOf(host, '['), ']')
  }

  function KeepUsable(lines: Lines, host: string, now: nat): (r: Lines)
    ensures forall l <- r :: l in lines && Usable(l, host, now)
  {
    if lines == [] then []
    else (if Usable(lines[0], host, now) then [lines[0]] else []) + KeepUsable(lines[1..], host, now)
  }

  function KeepUnexpired(lines: Lines, now: nat): (r: Lines)
    ensures forall l :: l in r <==> l in lines && Unexpired(l, now)
  {
    if lines == [] then []
    else (if Unexpired(lines[0], now) then [lines[0]] else []) + KeepUnexpired(lines[1..], now)
  }

  // The map.

  /** The lines sent to a URL: its origin's, still unexpired. */
  function LinesAt(stored: Stored, url: Url, now: nat): Lines {
    if OriginOf(url) in stored then KeepUnexpired(stored[OriginOf(url)], now) else []
  }

  /** The map after a response from `url` left `lines` in the client's store. */
  function Replaced(stored: Stored, url: Url, lines: Lines, now: nat): Stored {
    if url.host.None? || OriginOf(url).Opaque? then stored
    else
      var kept := KeepUsable(lines, CookieHost(url.host.value), now);
      if kept == [] then stored - {OriginOf(url)} else stored[OriginOf(url) := kept]
  }

  // The vector.

  type Entry = (Origin, Lines)

  /** Origin equality as the jar's search applies it. */
  predicate Owns(entry: Entry, origin: Origin) {
    origin.Tuple? && entry.0 == origin
  }

  /** Comparable origins appear once, and no entry is empty. */
  predicate Tidy(entries: seq<Entry>) {
    && (forall i :: 0 <= i < |entries| ==> entries[i].1 != [])
    && (forall i, j :: 0 <= i < |entries| && 0 <= j < |entries| && i != j && entries[i].0.Tuple? ==>
         entries[j].0 != entries[i].0)
  }

  /** The lines the vector holds for an origin. */
  function Held(entries: seq<Entry>, origin: Origin): Lines {
    if entries == [] then []
    else if Owns(entries[0], origin) then entries[0].1
    else Held(entries[1..], origin)
  }

  /** A vector holds what a map says, for every comparable origin. */
  ghost predicate Holds(entries: seq<Entry>, stored: Stored) {
    && Tidy(entries)
    && (forall o <- stored :: o.Tuple? && stored[o] != [])
    && (forall o: Origin :: o.Tuple? ==> Held(entries, o) == if o in stored then stored[o] else [])
  }

  lemma {:induction false} HeldAt(entries: seq<Entry>, i: nat)
    requires Tidy(entries) && i < |entries| && entries[i].0.Tuple?
    ensures Held(entries, entries[i].0) == entries[i].1
  {
    if i > 0 {
      assert entries[0].0 != entries[i].0;
      assert Tidy(entries[1..]);
      HeldAt(entries[1..], i - 1);
    }
  }

  lemma {:induction false} HeldNowhere(entries: seq<Entry>, origin: Origin)
    requires forall i :: 0 <= i < |entries| ==> !Owns(entries[i], origin)
    ensures Held(entries, origin) == []
  {
    if entries != [] {
      HeldNowhere(entries[1..], origin);
    }
  }

  /** Swap-remove: the last entry takes the removed one's place. */
  function SwapRemove(entries: seq<Entry>, i: nat): seq<Entry>
    requires i < |entries|
  {
    var last := |entries| - 1;
    if i == last then entries[..last] else entries[..last][i := entries[last]]
  }

  /** Where the entry at `k` after a swap-remove was before it. */
  function Before(entries: seq<Entry>, i: nat, k: nat): (m: nat)
    requires i < |entries| && k < |entries| - 1
    ensures m < |entries| && m != i && SwapRemove(entries, i)[k] == entries[m]
  {
    if k == i then |entries| - 1 else k
  }

  lemma SwapRemoveTidy(entries: seq<Entry>, i: nat)
    requires Tidy(entries) && i < |entries|
    ensures Tidy(SwapRemove(entries, i))
  {
    var r := SwapRemove(entries, i);
    forall k, j | 0 <= k < |r| && 0 <= j < |r| && k != j && r[k].0.Tuple?
      ensures r[j].0 != r[k].0
    {
      assert Before(entries, i, k) != Before(entries, i, j);
    }
    forall k | 0 <= k < |r| ensures r[k].1 != [] {
      assert Before(entries, i, k) < |entries|;
    }
  }

  lemma SwapRemoveGone(entries: seq<Entry>, i: nat)
    requires Tidy(entries) && i < |entries| && entries[i].0.Tuple?
    ensures forall k :: 0 <= k < |SwapRemove(entries, i)| ==>
              !Owns(SwapRemove(entries, i)[k], entries[i].0)
  {
    forall k | 0 <= k < |SwapRemove(entries, i)|
      ensures !Owns(SwapRemove(entries, i)[k], entries[i].0)
    {
      assert Before(entries, i, k) != i;
    }
  }

  lemma SwapRemoveHeld(entries: seq<Entry>, i: nat, origin: Origin)
    requires Tidy(entries) && i < |entries| && origin.Tuple? && entries[i].0 != origin
    ensures Held(SwapRemove(entries, i), origin) == Held(entries, origin)
  {
    SwapRemoveTidy(entries, i);
    var r := SwapRemove(entries, i);
    if m: nat :| m < |entries| && Owns(entries[m], origin) {
      HeldAt(entries, m);
      var k := if m == |entries| - 1 then i else m;
      assert r[k] == entries[m];
      HeldAt(r, k);
    } else {
      HeldNowhere(entries, origin);
      forall k | 0 <= k < |r| ensures !Owns(r[k], origin) {
        assert Before(entries, i, k) < |entries|;
      }
      HeldNowhere(r, origin);
    }
  }

  lemma SwapRemoveHolds(entries: seq<Entry>, i: nat, stored: Stored)
    requires Holds(entries, stored) && i < |entries| && entries[i].0.Tuple?
    ensures Holds(SwapRemove(entries, i), stored - {entries[i].0})
  {
    SwapRemoveTidy(entries, i);
    SwapRemoveGone(entries, i);
    var r := SwapRemove(entries, i);
    var rest := stored - {entries[i].0};
    forall o: Origin | o.Tuple? ensures Held(r, o) == if o in rest then rest[o] else [] {
      if o == entries[i].0 {
        HeldNowhere(r, o);
      } else {
        SwapRemoveHeld(entries, i, o);
      }
    }
  }

  lemma AbsentHolds(entries: seq<Entry>, origin: Origin, stored: Stored)
    requires Holds(entries, stored)
    requires forall k :: 0 <= k < |entries| ==> !Owns(entries[k], origin)
    ensures Holds(entries, stored - {origin})
  {
    HeldNowhere(entries, origin);
    assert origin.Tuple? ==> origin !in stored;
    assert origin.Opaque? ==> origin !in stored;
    assert stored - {origin} == stored;
  }

  lemma AppendHolds(entries: seq<Entry>, origin: Origin, kept: Lines, stored: Stored)
    requires Holds(entries, stored) && kept != []
    requires forall k :: 0 <= k < |entries| ==> !Owns(entries[k], origin)
    ensures Holds(entries + [(origin, kept)],
                  if origin.Opaque? then stored else stored[origin := kept])
  {
    var r := entries + [(origin, kept)];
    forall o: Origin | o.Tuple?
      ensures Held(r, o) == if o == origin then kept else Held(entries, o)
    {
      HeldAppend(entries, (origin, kept), o);
    }
  }

  lemma {:induction false} HeldAppend(entries: seq<Entry>, entry: Entry, origin: Origin)
    requires origin.Tuple? && entry.1 != [] && forall i :: 0 <= i < |entries| ==> entries[i].1 != []
    requires entry.0 == origin ==> forall i :: 0 <= i < |entries| ==> entries[i].0 != origin
    ensures Held(entries + [entry], origin) ==
            if entry.0 == origin then entry.1 else Held(entries, origin)
  {
    if entries == [] {
      assert entries + [entry] == [entry];
    } else {
      HeldAppend(entries[1..], entry, origin);
      assert (entries + [entry])[1..] == entries[1..] + [entry];
    }
  }

  class Jar {
    var origins: seq<Entry>
    ghost var View: Stored

    ghost predicate Valid()
      reads this
    {
      Holds(origins, View)
    }

    constructor ()
      ensures Valid() && View == map[]
    {
      origins, View := [], map[];
    }

    method Lines(url: Url, now: nat) returns (r: Lines)
      requires Valid()
      ensures r == LinesAt(View, url, now)
    {
      var origin := OriginOf(url);
      r := [];
      ghost var found := false;
      for i := 0 to |origins|
        invariant !found ==> r == [] && forall k :: 0 <= k < i ==> !Owns(origins[k], origin)
        invariant found ==> origin.Tuple? && r == KeepUnexpired(Held(origins, origin), now)
                            && exists k :: 0 <= k < i && Owns(origins[k], origin)
      {
        if Owns(origins[i], origin) {
          HeldAt(origins, i);
          r := r + KeepUnexpired(origins[i].1, now);
          found := true;
        }
      }
      if !found {
        HeldNowhere(origins, origin);
      }
    }

    method Replace(url: Url, lines: Lines, now: nat)
      requires Valid()
      modifies this
      ensures Valid() && View == Replaced(old(View), url, lines, now)
    {
      if url.host.None? {
        return;
      }
      var kept := KeepUsable(lines, CookieHost(url.host.value), now);
      var origin := OriginOf(url);
      Remove(origin);
      if kept != [] {
        Push(origin, kept);
      }
      assert origin.Opaque? ==> View == old(View);
    }

    /** Drop the entry an origin owns, if any. */
    method Remove(origin: Origin)
      requires Valid()
      modifies this
      ensures Valid() && View == old(View) - {origin}
      ensures forall k :: 0 <= k < |origins| ==> !Owns(origins[k], origin)
    {
      var position := Position(origin);
      if position.Some? {
        SwapRemoveHolds(origins, position.value, View);
        SwapRemoveGone(origins, position.value);
        origins := SwapRemove(origins, position.value);
      } else {
        AbsentHolds(origins, origin, View);
      }
      View := View - {origin};
    }

    method Push(origin: Origin, kept: Lines)
      requires Valid() && kept != []
      requires forall k :: 0 <= k < |origins| ==> !Owns(origins[k], origin)
      modifies this
      ensures Valid() && View == if origin.Opaque? then old(View) else old(View)[origin := kept]
    {
      AppendHolds(origins, origin, kept, View);
      origins := origins + [(origin, kept)];
      View := if origin.Opaque? then View else View[origin := kept];
    }

    method Position(origin: Origin) returns (r: Option<nat>)
      requires Valid()
      ensures r.Some? ==> r.value < |origins| && Owns(origins[r.value], origin)
      ensures r.None? ==> forall k :: 0 <= k < |origins| ==> !Owns(origins[k], origin)
    {
      for i := 0 to |origins|
        invariant forall k :: 0 <= k < i ==> !Owns(origins[k], origin)
      {
        if Owns(origins[i], origin) {
          return Some(i);
        }
      }
      r := None;
    }
  }

  // Whole histories.

  /** One response: where it came from, the lines it left, and when. */
  datatype Response = Response(url: Url, lines: Lines, now: nat)

  function After(history: seq<Response>): Stored {
    if history == [] then map[]
    else
      var last := history[|history| - 1];
      Replaced(After(history[..|history| - 1]), last.url, last.lines, last.now)
  }

  /** The last response from an origin. */
  function LastFrom(history: seq<Response>, origin: Origin): (r: Option<Response>)
    ensures r.Some? ==> OriginOf(r.value.url) == origin
  {
    if history == [] then None
    else
      var last := history[|history| - 1];
      if OriginOf(last.url) == origin then Some(last) else LastFrom(history[..|history| - 1], origin)
  }

  /** What is sent to a URL is what its origin's last response left usable, as far as that is
      still unexpired; no other response matters. */
  lemma {:induction false} SentAreLastStored(history: seq<Response>, url: Url, now: nat)
    requires OriginOf(url).Tuple?
    ensures LinesAt(After(history), url, now) ==
            match LastFrom(history, OriginOf(url))
            case Some(r) => KeepUnexpired(KeepUsable(r.lines, CookieHost(r.url.host.value), r.now), now)
            case None => []
  {
    if history != [] {
      SentAreLastStored(history[..|history| - 1], url, now);
    }
  }

  /** An expired line stays expired, so it is never sent at a later time. */
  lemma ExpiredStaysExpired(stored: Stored, url: Url, line: string, now: nat, later: nat)
    requires now <= later && !Unexpired(line, now)
    ensures line !in LinesAt(stored, url, later)
  {
  }

  /** Matching a domain means ending in it at a label boundary, whatever the case. */
  lemma DomainMatchesMeans(host: string, domain: string)
    ensures DomainMatches(host, domain) <==>
            domain != "" && (Lower(host) == Lower(domain)
                             || exists front :: Lower(host) == front + "." + Lower(domain))
  {
    if domain != "" && |host| >= |domain| + 1 {
      var split := |host| - (|domain| + 1);
      assert Lower(host) == Lower(host)[..split] + [Lower(host)[split]] + Lower(host)[split + 1..];
      assert Lower(host[split + 1..]) == Lower(host)[split + 1..];
      assert LowerChar(host[split]) == '.' <==> host[split] == '.';
      if front :| Lower(host) == front + "." + Lower(domain) {
        assert |front| == split;
        assert Lower(host)[split] == '.';
        assert Lower(host)[split + 1..] == Lower(domain);
      }
    } else if domain != "" {
      if front :| Lower(host) == front + "." + Lower(domain) {
        assert false;
      }
    }
  }

  // What a line says.

  /** The fifth field is a number of seconds: zero, or still to come. */
  ghost predicate Lasts(fields: seq<string>, now: nat) {
    |fields| >= 5 && exists expiry :: ParseUsize(fields[4]) == Some(expiry) && (expiry == 0 || now < expiry)
  }

  /** A line lasts as its fifth tab-separated field says; with zero there, as a session's cookie, always. */
  lemma UnexpiredMeans(line: string, now: nat)
    ensures Unexpired(line, now) <==> Lasts(Split(line, '\t'), now)
  {
    hide Split, ParseUsize;
  }

  /** What is left of a text without a prefix it may have. */
  predicate Strips(s: string, prefix: string, rest: string) {
    s == prefix + rest || (s == rest && !(prefix <= s))
  }

  lemma StripsOnce(s: string, prefix: string, rest: string)
    requires prefix != ""
    ensures Strips(s, prefix, rest) <==> WithoutPrefix(s, prefix) == rest
  {
    if prefix <= s {
      assert s == prefix + s[|prefix|..];
      if s == prefix + rest {
        assert s[|prefix|..] == rest;
      }
    }
  }

  /** A line is kept for a host exactly when it has seven fields and a name in the sixth, lasts, and the
      first, without the mark of an HTTP-only cookie and without a leading dot, is the host or a domain
      above it. */
  lemma UsableMeans(line: string, host: string, now: nat)
    ensures Usable(line, host, now) <==>
            var fields := Split(line, '\t');
            && |fields| == 7 && fields[5] != "" && Lasts(fields, now)
            && exists bare, domain ::
                 && Strips(fields[0], "#HttpOnly_", bare) && Strips(bare, ".", domain)
                 && domain != ""
                 && (Lower(host) == Lower(domain)
                     || exists front :: Lower(host) == front + "." + Lower(domain))
  {
    hide Split, Lower, Strips, Unexpired, Lasts, DomainMatches, WithoutPrefix;
    UnexpiredMeans(line, now);
    var fields := Split(line, '\t');
    if |fields| == 7 {
      var bare := WithoutPrefix(fields[0], "#HttpOnly_");
      var domain := WithoutPrefix(bare, ".");
      StripsOnce(fields[0], "#HttpOnly_", bare);
      StripsOnce(bare, ".", domain);
      DomainMatchesMeans(host, domain);
      forall other, above | Strips(fields[0], "#HttpOnly_", other) && Strips(other, ".", above)
        ensures other == bare && above == domain
      {
        StripsOnce(fields[0], "#HttpOnly_", other);
        StripsOnce(other, ".", above);
      }
    }
  }

  /** Lines are kept one by one and in order: those of two lists are those of the first and then those
      of the second, and a line alone is kept or not by what it says. */
  lemma KeepsEach(a: Lines, b: Lines, line: string, host: string, now: nat)
    ensures KeepUsable(a + b, host, now) == KeepUsable(a, host, now) + KeepUsable(b, host, now)
    ensures KeepUnexpired(a + b, now) == KeepUnexpired(a, now) + KeepUnexpired(b, now)
    ensures KeepUsable([line], host, now) == if Usable(line, host, now) then [line] else []
    ensures KeepUnexpired([line], now) == if Unexpired(line, now) then [line] else []
  {
    hide Usable, Unexpired;
    UsableSplits(a, b, host, now);
    UnexpiredSplits(a, b, now);
    assert [line][1..] == [];
  }

  lemma LinesGroup(a: Lines, b: Lines, c: Lines)
    ensures (a + b) + c == a + (b + c)
  {
  }

  lemma {:induction false} UsableSplits(a: Lines, b: Lines, host: string, now: nat)
    ensures KeepUsable(a + b, host, now) == KeepUsable(a, host, now) + KeepUsable(b, host, now)
  {
    hide Usable;
    if a == [] {
      assert a + b == b;
    } else {
      UsableSplits(a[1..], b, host, now);
      assert (a + b)[0] == a[0] && (a + b)[1..] == a[1..] + b;
      var head := if Usable(a[0], host, now) then [a[0]] else [];
      var front, back := KeepUsable(a[1..], host, now), KeepUsable(b, host, now);
      LinesGroup(head, front, back);
      assert KeepUsable(a + b, host, now) == head + (front + back);
    }
  }

  lemma {:induction false} UnexpiredSplits(a: Lines, b: Lines, now: nat)
    ensures KeepUnexpired(a + b, now) == KeepUnexpired(a, now) + KeepUnexpired(b, now)
  {
    hide Unexpired;
    if a == [] {
      assert a + b == b;
    } else {
      UnexpiredSplits(a[1..], b, now);
      assert (a + b)[0] == a[0] && (a + b)[1..] == a[1..] + b;
      var head := if Unexpired(a[0], now) then [a[0]] else [];
      var front, back := KeepUnexpired(a[1..], now), KeepUnexpired(b, now);
      LinesGroup(head, front, back);
      assert KeepUnexpired(a + b, now) == head + (front + back);
    }
  }

  /** A host in brackets is written without them, and any other as it is. */
  lemma CookieHostMeans(host: string)
    requires host != "" && host[0] != '[' && host[|host| - 1] != ']'
    ensures CookieHost("[" + host + "]") == host && CookieHost(host) == host
  {
    var ended := host + "]";
    assert "[" + host + "]" == "[" + ended && ("[" + ended)[1..] == ended;
    assert TrimStartOf(ended, '[') == ended && TrimStartOf("[" + ended, '[') == ended;
    assert ended[..|ended| - 1] == host && TrimEndOf(host, ']') == host;
  }
}
