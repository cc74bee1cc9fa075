// The mount-spec codec: "dns:path,dns:path".

module MountSpec {
  datatype Mount = Mount(dns: string, path: string)

  // White space as Go's unicode package defines it.
  predicate IsSpace(c: char) {
    c in {'\t', '\n', '\U{000B}', '\U{000C}', '\r', ' ', '\U{0085}', '\U{00A0}', '\U{1680}', '\U{2028}', '\U{2029}',
          '\U{202F}', '\U{205F}', '\U{3000}'}
    || '\U{2000}' <= c <= '\U{200A}'
  }

  // ---- the library functions the codec uses ------------------------------------------

  function TrimLeft(s: string): string {
    if s != "" && IsSpace(s[0]) then TrimLeft(s[1..]) else s
  }

  function TrimRight(s: string): string {
    if s != "" && IsSpace(s[|s| - 1]) then TrimRight(s[..|s| - 1]) else s
  }

  function TrimSpace(s: string): string {
    TrimRight(TrimLeft(s))
  }

  function Split(s: string, sep: char): (parts: seq<string>)
    ensures |parts| >= 1
  {
    if s == "" then [""]
    else if s[0] == sep then [""] + Split(s[1..], sep)
    else
      var rest := Split(s[1..], sep);
      [[s[0]] + rest[0]] + rest[1..]
  }

  function Join(parts: seq<string>, sep: char): string {
    if parts == [] then "" else if |parts| == 1 then parts[0] else parts[0] + [sep] + Join(parts[1..], sep)
  }

  // Position of the first c, or |s| when there is none.
  function IndexOf(s: string, c: char): (i: nat)
    ensures i <= |s| && (i < |s| ==> s[i] == c) && forall j :: 0 <= j < i ==> s[j] != c
  {
    if s == "" || s[0] == c then 0 else IndexOf(s[1..], c) + 1
  }

  // ---- the codec -----------------------------------------------------------------------

  function Entry(m: Mount): string {
    m.dns + [':'] + m.path
  }

  predicate Mountable(m: Mount) {
    m.dns != "" && m.path != ""
  }

  function Entries(mounts: seq<Mount>): seq<string> {
    if mounts == [] then []
    else (if Mountable(mounts[0]) then [Entry(mounts[0])] else []) + Entries(mounts[1..])
  }

  function Format(mounts: seq<Mount>): string {
    Join(Entries(mounts), ',')
  }

  // One comma-separated entry: nothing when it is blank or has an empty half.
  function ParseEntry(raw: string): seq<Mount> {
    var entry := TrimSpace(raw);
    var i := IndexOf(entry, ':');
    if 0 < i && i + 1 < |entry| then [Mount(entry[..i], entry[i + 1..])] else []
  }

  function ParseEntries(raws: seq<string>): seq<Mount> {
    if raws == [] then [] else ParseEntry(raws[0]) + ParseEntries(raws[1..])
  }

  function Parse(spec: string): seq<Mount> {
    var trimmed := TrimSpace(spec);
    if trimmed == "" then [] else ParseEntries(Split(trimmed, ','))
  }

  // What a mount must look like to survive the round trip.
  predicate Canonical(m: Mount) {
    Mountable(m) && ',' !in m.dns && ':' !in m.dns && ',' !in m.path && !IsSpace(m.dns[0]) && !IsSpace(m.path[|m.path| - 1])
  }

  ghost predicate AllCanonical(mounts: seq<Mount>) {
    forall i :: 0 <= i < |mounts| ==> Canonical(mounts[i])
  }

  // ---- the loops -------------------------------------------------------------------------

  method FormatMountSpec(mounts: seq<Mount>) returns (spec: string)
    ensures spec == Format(mounts)
  {
    hide Join, Entries;
    var parts: seq<string> := [];
    for i := 0 to |mounts|
      invariant parts + Entries(mounts[i..]) == Entries(mounts)
    {
      EntriesStep(parts, mounts, i);
      if mounts[i].dns == "" || mounts[i].path == "" {
        continue;
      }
      parts := parts + [mounts[i].dns + [':'] + mounts[i].path];
    }
    EntriesEnd(parts, mounts);
    spec := Join(parts, ',');
  }

  method ParseMountSpec(spec: string) returns (mounts: seq<Mount>)
    ensures mounts == Parse(spec)
    ensures AllCanonical(mounts)
  {
    ParseIsCanonical(spec);
    hide AllCanonical, TrimSpace, Split, IndexOf, ParseEntry;
    var trimmed := TrimSpace(spec);
    if trimmed == "" {
      return [];
    }
    var raws := Split(trimmed, ',');
    mounts := [];
    hide ParseEntries;
    assert raws[0..] == raws;
    for k := 0 to |raws|
      invariant mounts + ParseEntries(raws[k..]) == ParseEntries(raws)
    {
      var entry := TrimSpace(raws[k]);
      ParseEntriesStep(mounts, raws, k);
      ParseEntryCases(raws[k]);
      if entry == "" {
        continue;
      }
      var i := IndexOf(entry, ':');
      if i == |entry| || i == 0 || i == |entry| - 1 {
        continue;
      }
      mounts := mounts + [Mount(entry[..i], entry[i + 1..])];
    }
    ParseEntriesEnd(mounts, raws);
  }

  lemma EntriesStep(parts: seq<string>, mounts: seq<Mount>, i: nat)
    requires i < |mounts|
    ensures parts + Entries(mounts[i..])
         == (if Mountable(mounts[i]) then parts + [Entry(mounts[i])] else parts) + Entries(mounts[i + 1..])
  {
    assert mounts[i..][1..] == mounts[i + 1..];
  }

  lemma EntriesEnd(parts: seq<string>, mounts: seq<Mount>)
    ensures parts + Entries(mounts[|mounts|..]) == parts
  {
  }

  // An entry is skipped for the reasons the loop tests.
  lemma ParseEntryCases(raw: string)
    ensures var entry := TrimSpace(raw);
            var i := IndexOf(entry, ':');
            ParseEntry(raw) == if entry == "" || i == |entry| || i == 0 || i == |entry| - 1 then []
                               else [Mount(entry[..i], entry[i + 1..])]
  {
  }

  lemma ParseEntriesEnd(mounts: seq<Mount>, raws: seq<string>)
    ensures mounts + ParseEntries(raws[|raws|..]) == mounts
  {
  }

  lemma ParseEntriesStep(mounts: seq<Mount>, raws: seq<string>, k: nat)
    requires k < |raws|
    ensures mounts + ParseEntries(raws[k..]) == mounts + ParseEntry(raws[k]) + ParseEntries(raws[k + 1..])
    ensures mounts + [] == mounts
  {
    hide ParseEntry;
    assert raws[k..][1..] == raws[k + 1..];
  }

  // ---- what parsing yields -----------------------------------------------------------------

  lemma {:induction false} TrimLeftFacts(s: string)
    ensures TrimLeft(s) != "" ==> !IsSpace(TrimLeft(s)[0])
    ensures s != "" && !IsSpace(s[0]) ==> TrimLeft(s) == s
    ensures forall c :: c in TrimLeft(s) ==> c in s
  {
    if s != "" && IsSpace(s[0]) {
      TrimLeftFacts(s[1..]);
    }
  }

  lemma {:induction false} TrimRightFacts(s: string)
    ensures TrimRight(s) != "" ==> !IsSpace(TrimRight(s)[|TrimRight(s)| - 1])
    ensures s != "" && !IsSpace(s[|s| - 1]) ==> TrimRight(s) == s
    ensures forall c :: c in TrimRight(s) ==> c in s
    ensures TrimRight(s) != "" ==> s != "" && TrimRight(s)[0] == s[0]
  {
    if s != "" && IsSpace(s[|s| - 1]) {
      TrimRightFacts(s[..|s| - 1]);
    }
  }

  lemma TrimSpaceFacts(s: string)
    ensures var t := TrimSpace(s);
            && (t != "" ==> !IsSpace(t[0]) && !IsSpace(t[|t| - 1]))
            && (forall c :: c in t ==> c in s)
            && (s != "" && !IsSpace(s[0]) && !IsSpace(s[|s| - 1]) ==> t == s)
  {
    TrimLeftFacts(s);
    TrimRightFacts(TrimLeft(s));
  }

  lemma {:induction false} SplitFacts(s: string, sep: char)
    ensures forall k :: 0 <= k < |Split(s, sep)| ==> sep !in Split(s, sep)[k]
  {
    if s != "" {
      SplitFacts(s[1..], sep);
    }
  }

  lemma ParseEntryCanonical(raw: string)
    requires ',' !in raw
    ensures AllCanonical(ParseEntry(raw))
  {
    TrimSpaceFacts(raw);
  }

  lemma {:induction false} ParseEntriesCanonical(raws: seq<string>)
    requires forall k :: 0 <= k < |raws| ==> ',' !in raws[k]
    ensures AllCanonical(ParseEntries(raws))
  {
    if raws != [] {
      ParseEntryCanonical(raws[0]);
      ParseEntriesCanonical(raws[1..]);
    }
  }

  lemma ParseIsCanonical(spec: string)
    ensures AllCanonical(Parse(spec))
  {
    SplitFacts(TrimSpace(spec), ',');
    ParseEntriesCanonical(Split(TrimSpace(spec), ','));
  }

  // ---- the round trips -----------------------------------------------------------------------

  lemma ParseOneEntry(m: Mount)
    requires Canonical(m)
    ensures ParseEntry(Entry(m)) == [m] && ',' !in Entry(m) && !IsSpace(Entry(m)[0]) && !IsSpace(Entry(m)[|Entry(m)| - 1])
  {
    var e := Entry(m);
    assert e[0] == m.dns[0] && e[|e| - 1] == m.path[|m.path| - 1];
    TrimSpaceFacts(e);
    assert e[|m.dns|] == ':' && e[..|m.dns|] == m.dns && e[|m.dns| + 1..] == m.path;
    assert forall j :: 0 <= j < |m.dns| ==> e[j] == m.dns[j];
    assert IndexOf(e, ':') == |m.dns|;
  }

  lemma {:induction false} EntriesOfCanonical(mounts: seq<Mount>)
    requires AllCanonical(mounts)
    ensures |Entries(mounts)| == |mounts|
    ensures forall i :: 0 <= i < |mounts| ==> Entries(mounts)[i] == Entry(mounts[i])
    ensures ParseEntries(Entries(mounts)) == mounts
  {
    hide Entry, ParseEntry;
    if mounts != [] {
      var first, rest := mounts[0], mounts[1..];
      ParseOneEntry(first);
      EntriesOfCanonical(rest);
      assert mounts == [first] + rest;
      assert Entries(mounts) == [Entry(first)] + Entries(rest);
      assert Entries(mounts)[0] == Entry(first) && Entries(mounts)[1..] == Entries(rest);
    }
  }

  lemma {:induction false} SplitPrefix(a: string, b: string, sep: char)
    requires sep !in a
    ensures Split(a + [sep] + b, sep) == [a] + Split(b, sep)
  {
    if a == "" {
      assert a + [sep] + b == [sep] + b;
    } else {
      SplitPrefix(a[1..], b, sep);
      var whole := a + [sep] + b;
      assert whole[0] == a[0] && whole[1..] == a[1..] + [sep] + b;
      assert [a[0]] + a[1..] == a;
      assert ([a[1..]] + Split(b, sep))[1..] == Split(b, sep);
    }
  }

  lemma {:induction false} SplitWhole(a: string, sep: char)
    requires sep !in a
    ensures Split(a, sep) == [a]
  {
    if a != "" {
      SplitWhole(a[1..], sep);
      assert [a[0]] + a[1..] == a;
    }
  }

  lemma {:induction false} SplitJoin(parts: seq<string>, sep: char)
    requires parts != [] && forall i :: 0 <= i < |parts| ==> sep !in parts[i]
    ensures Split(Join(parts, sep), sep) == parts
  {
    if |parts| == 1 {
      SplitWhole(parts[0], sep);
    } else {
      SplitJoin(parts[1..], sep);
      SplitPrefix(parts[0], Join(parts[1..], sep), sep);
    }
  }

  lemma {:induction false} JoinEnds(parts: seq<string>, sep: char)
    requires parts != [] && forall i :: 0 <= i < |parts| ==> parts[i] != ""
    ensures var j := Join(parts, sep);
            && j != "" && j[0] == parts[0][0]
            && j[|j| - 1] == parts[|parts| - 1][|parts[|parts| - 1]| - 1]
  {
    if |parts| > 1 {
      JoinEnds(parts[1..], sep);
    }
  }

  lemma CanonicalRoundTrip(mounts: seq<Mount>)
    requires AllCanonical(mounts)
    ensures Parse(Format(mounts)) == mounts
  {
    EntriesOfCanonical(mounts);
    if mounts != [] {
      var parts := Entries(mounts);
      forall i | 0 <= i < |parts|
        ensures ',' !in parts[i] && parts[i] != "" && !IsSpace(parts[i][0]) && !IsSpace(parts[i][|parts[i]| - 1])
      {
        ParseOneEntry(mounts[i]);
      }
      SplitJoin(parts, ',');
      JoinEnds(parts, ',');
      TrimSpaceFacts(Format(mounts));
    }
  }

  // The mounts a spec can carry: those with both halves set.
  function Carried(mounts: seq<Mount>): seq<Mount> {
    if mounts == [] then []
    else (if Mountable(mounts[0]) then [mounts[0]] else []) + Carried(mounts[1..])
  }

  lemma {:induction false} EntriesOfCarried(mounts: seq<Mount>)
    ensures Entries(Carried(mounts)) == Entries(mounts)
    ensures (forall i :: 0 <= i < |mounts| ==> Mountable(mounts[i])) ==> Carried(mounts) == mounts
  {
    if mounts != [] {
      EntriesOfCarried(mounts[1..]);
      if Mountable(mounts[0]) {
        assert Carried(mounts)[1..] == Carried(mounts[1..]);
        assert mounts == [mounts[0]] + mounts[1..];
      } else {
        assert Carried(mounts) == Carried(mounts[1..]) && Entries(mounts) == Entries(mounts[1..]);
      }
    }
  }

  // The spec of any list of mounts gives back those with both halves set exactly
  // when these have no comma, no colon in the DNS name, and no white space before
  // the name or after the path. A colon in the path does survive.
  lemma RoundTripIff(mounts: seq<Mount>)
    ensures Parse(Format(mounts)) == Carried(mounts) <==> AllCanonical(Carried(mounts))
    ensures Parse(Format(mounts)) == mounts <==> AllCanonical(mounts)
  {
    ParseIsCanonical(Format(mounts));
    EntriesOfCarried(mounts);
    if AllCanonical(Carried(mounts)) {
      CanonicalRoundTrip(Carried(mounts));
    }
    if AllCanonical(mounts) {
      CanonicalRoundTrip(mounts);
    }
  }

  // Every spec string has a normal form: parsing, formatting and parsing again
  // gives what the first parse gave.
  lemma ParseFormatParse(spec: string)
    ensures Parse(Format(Parse(spec))) == Parse(spec)
  {
    ParseIsCanonical(spec);
    CanonicalRoundTrip(Parse(spec));
  }

  // ---- any spec string ------------------------------------------------------------------------

  ghost predicate Blank(s: string) {
    forall i :: 0 <= i < |s| ==> IsSpace(s[i])
  }

  lemma {:induction false} TrimLeftIs(s: string)
    ensures |TrimLeft(s)| <= |s| && s[|s| - |TrimLeft(s)|..] == TrimLeft(s) && Blank(s[..|s| - |TrimLeft(s)|])
  {
    hide IsSpace;
    if s != "" && IsSpace(s[0]) {
      TrimLeftIs(s[1..]);
      var t := TrimLeft(s);
      assert t == TrimLeft(s[1..]);
      assert s[|s| - |t|..] == s[1..][|s| - 1 - |t|..];
      assert forall i :: 0 < i < |s| - |t| ==> s[i] == s[1..][..|s| - 1 - |t|][i - 1];
    }
  }

  lemma {:induction false} TrimRightIs(s: string)
    ensures |TrimRight(s)| <= |s| && s[..|TrimRight(s)|] == TrimRight(s) && Blank(s[|TrimRight(s)|..])
  {
    hide IsSpace;
    if s != "" && IsSpace(s[|s| - 1]) {
      var n := |s| - 1;
      TrimRightIs(s[..n]);
      var t := TrimRight(s);
      assert forall i :: |t| <= i < n ==> s[i] == s[..n][|t|..][i - |t|];
    }
  }

  lemma {:induction false} TrimLeftOf(w: string, u: string)
    requires Blank(w) && u != "" && !IsSpace(u[0])
    ensures TrimLeft(w + u) == u
  {
    hide IsSpace;
    if w == "" {
      assert w + u == u;
    } else {
      assert IsSpace(w[0]) && Blank(w[1..]);
      TrimLeftOf(w[1..], u);
      assert (w + u)[1..] == w[1..] + u && (w + u)[0] == w[0];
    }
  }

  lemma {:induction false} TrimRightOf(u: string, w: string)
    requires Blank(w) && u != "" && !IsSpace(u[|u| - 1])
    ensures TrimRight(u + w) == u
  {
    hide IsSpace;
    if w == "" {
      assert u + w == u;
    } else {
      var n := |w| - 1;
      assert IsSpace(w[n]) && Blank(w[..n]);
      TrimRightOf(u, w[..n]);
      var whole := u + w;
      assert whole[..|whole| - 1] == u + w[..n] && whole[|whole| - 1] == w[n];
    }
  }

  // White space, a DNS name, a colon, a path, white space.
  ghost predicate ReadsAs(raw: string, m: Mount) {
    && m.dns != "" && m.path != "" && ':' !in m.dns && !IsSpace(m.dns[0]) && !IsSpace(m.path[|m.path| - 1])
    && exists w1, w2 :: Blank(w1) && Blank(w2) && raw == w1 + Entry(m) + w2
  }

  lemma TrimSplits(raw: string) returns (w1: string, w2: string)
    ensures Blank(w1) && Blank(w2) && raw == w1 + TrimSpace(raw) + w2
  {
    var t := TrimLeft(raw);
    TrimLeftIs(raw);
    TrimRightIs(t);
    w1, w2 := raw[..|raw| - |t|], t[|TrimRight(t)|..];
    assert raw == w1 + t && t == TrimRight(t) + w2;
  }

  lemma TrimOf(w1: string, t: string, w2: string)
    requires Blank(w1) && Blank(w2) && t != "" && !IsSpace(t[0]) && !IsSpace(t[|t| - 1])
    ensures TrimSpace(w1 + t + w2) == t
  {
    assert w1 + t + w2 == w1 + (t + w2) && (t + w2)[0] == t[0];
    TrimLeftOf(w1, t + w2);
    TrimRightOf(t, w2);
  }

  // An entry yields exactly the mount it reads as, and nothing when it reads as none.
  lemma ParseEntryIff(raw: string, m: Mount)
    ensures ParseEntry(raw) == [m] <==> ReadsAs(raw, m)
    ensures |ParseEntry(raw)| <= 1
  {
    hide ReadsAs, TrimSpace;
    if ReadsAs(raw, m) {
      ReadsAndParses(raw, m);
    }
    if ParseEntry(raw) == [m] {
      ParsesAndReads(raw, m);
    }
  }

  lemma ReadsAndParses(raw: string, m: Mount)
    requires ReadsAs(raw, m)
    ensures ParseEntry(raw) == [m]
  {
    hide IsSpace;
    var e := Entry(m);
    var w1, w2 :| Blank(w1) && Blank(w2) && raw == w1 + e + w2;
    assert e[0] == m.dns[0] && e[|e| - 1] == m.path[|m.path| - 1];
    TrimOf(w1, e, w2);
    FirstColon(m);
    hide TrimSpace, Entry, IndexOf, Blank;
  }

  lemma ParsesAndReads(raw: string, m: Mount)
    requires ParseEntry(raw) == [m]
    ensures ReadsAs(raw, m)
  {
    hide IsSpace;
    var entry := TrimSpace(raw);
    var i := IndexOf(entry, ':');
    var w1, w2 := TrimSplits(raw);
    TrimSpaceFacts(raw);
    hide TrimSpace, IndexOf, Blank;
    assert m == Mount(entry[..i], entry[i + 1..]) && entry == Entry(m);
  }

  lemma FirstColon(m: Mount)
    requires ':' !in m.dns
    ensures IndexOf(Entry(m), ':') == |m.dns| && Entry(m)[..|m.dns|] == m.dns && Entry(m)[|m.dns| + 1..] == m.path
  {
    var e := Entry(m);
    assert e[|m.dns|] == ':';
    assert forall j :: 0 <= j < |m.dns| ==> e[j] == m.dns[j];
  }

  lemma {:induction false} TrimSnoc(r: string, c: char)
    requires IsSpace(c)
    ensures TrimSpace(r + [c]) == TrimSpace(r)
  {
    hide IsSpace;
    var whole := r + [c];
    if r == "" {
      assert whole == [c] && whole[1..] == "";
    } else if IsSpace(r[0]) {
      TrimSnoc(r[1..], c);
      assert whole[1..] == r[1..] + [c] && whole[0] == r[0];
    } else {
      assert whole[0] == r[0] && TrimLeft(whole) == whole && TrimLeft(r) == r;
      assert whole[..|whole| - 1] == r;
    }
  }

  // The last part with one more character.
  function LastWith(parts: seq<string>, c: char): seq<string>
    requires parts != []
  {
    parts[..|parts| - 1] + [parts[|parts| - 1] + [c]]
  }

  lemma LastWithCons(first: string, parts: seq<string>, c: char)
    requires parts != []
    ensures LastWith([first] + parts, c) == [first] + LastWith(parts, c)
  {
  }

  lemma {:induction false} SplitSnoc(s: string, c: char, sep: char)
    requires c != sep
    ensures Split(s + [c], sep) == LastWith(Split(s, sep), c)
  {
    var whole := s + [c];
    if s == "" {
      assert whole == [c] && whole[1..] == "" && Split("", sep) == [""];
      assert [whole[0]] + "" == [c] && Split(whole, sep) == [[c]] + [""][1..];
      assert "" + [c] == [c];
      assert LastWith([""], c) == [[c]];
    } else {
      SplitSnoc(s[1..], c, sep);
      var parts := Split(s[1..], sep);
      assert whole[1..] == s[1..] + [c] && whole[0] == s[0];
      hide LastWith;
      if s[0] == sep {
        LastWithCons("", parts, c);
        assert Split(whole, sep) == [""] + Split(s[1..] + [c], sep);
      } else {
        hide Split;
        LastWithInFront(s[0], parts, c);
        SplitFront(s, sep);
        SplitFront(whole, sep);
      }
    }
  }

  lemma SplitFront(s: string, sep: char)
    requires s != "" && s[0] != sep
    ensures Split(s, sep) == InFront(s[0], Split(s[1..], sep))
  {
  }

  // The first part with one more character in front.
  function InFront(c: char, parts: seq<string>): seq<string>
    requires parts != []
  {
    [[c] + parts[0]] + parts[1..]
  }

  lemma LastWithInFront(first: char, parts: seq<string>, c: char)
    requires parts != []
    ensures LastWith(parts, c) != [] && InFront(first, LastWith(parts, c)) == LastWith(InFront(first, parts), c)
  {
    if |parts| == 1 {
      assert [first] + (parts[0] + [c]) == [first] + parts[0] + [c];
      assert LastWith(parts, c) == [parts[0] + [c]];
      assert InFront(first, parts) == [[first] + parts[0]];
      assert InFront(first, LastWith(parts, c)) == [[first] + (parts[0] + [c])];
    } else {
      var n := |parts| - 1;
      assert LastWith(parts, c)[0] == parts[0] && LastWith(parts, c)[1..] == parts[1..n] + [parts[n] + [c]];
      assert InFront(first, parts)[..n] == [[first] + parts[0]] + parts[1..n];
    }
  }

  lemma {:induction false} ParseEntriesAppend(a: seq<string>, b: seq<string>)
    ensures ParseEntries(a + b) == ParseEntries(a) + ParseEntries(b)
  {
    hide ParseEntry;
    if a == [] {
      assert a + b == b;
    } else {
      ParseEntriesAppend(a[1..], b);
      assert (a + b)[1..] == a[1..] + b && (a + b)[0] == a[0];
    }
  }

  lemma ParseOne(raw: string)
    ensures ParseEntries([raw]) == ParseEntry(raw)
  {
    hide ParseEntry;
    assert [raw][1..] == [] && ParseEntries([]) == [];
  }

  lemma {:induction false} LeftTrimIdle(s: string)
    ensures ParseEntries(Split(TrimLeft(s), ',')) == ParseEntries(Split(s, ','))
  {
    if s != "" && IsSpace(s[0]) {
      LeftTrimIdle(s[1..]);
      assert s[0] != ',';
      SplitFront(s, ',');
      FirstBlankIdle(Split(s[1..], ','), s[0]);
      hide Split, ParseEntries, InFront;
    }
  }

  lemma LastSpaceIdle(s: string, c: char)
    requires IsSpace(c)
    ensures ParseEntries(Split(s + [c], ',')) == ParseEntries(Split(s, ','))
  {
    CommaIsNoSpace(c);
    hide IsSpace, Split, ParseEntries, LastWith;
    SplitSnoc(s, c, ',');
    LastBlankIdle(Split(s, ','), c);
  }

  lemma {:induction false} RightTrimIdle(s: string)
    ensures ParseEntries(Split(TrimRight(s), ',')) == ParseEntries(Split(s, ','))
  {
    hide IsSpace, Split, ParseEntries;
    if s != "" && IsSpace(s[|s| - 1]) {
      var n := |s| - 1;
      RightTrimIdle(s[..n]);
      LastSpaceIdle(s[..n], s[n]);
      assert s == s[..n] + [s[n]];
    }
  }

  lemma CommaIsNoSpace(c: char)
    ensures IsSpace(c) ==> c != ','
  {
  }

  lemma LastBlankIdle(parts: seq<string>, c: char)
    requires parts != [] && IsSpace(c)
    ensures ParseEntries(LastWith(parts, c)) == ParseEntries(parts)
  {
    var k := |parts| - 1;
    TrimSnoc(parts[k], c);
    assert ParseEntry(parts[k] + [c]) == ParseEntry(parts[k]);
    hide IsSpace, ParseEntry, TrimSpace;
    ParseEntriesAppend(parts[..k], [parts[k]]);
    ParseEntriesAppend(parts[..k], [parts[k] + [c]]);
    ParseOne(parts[k]);
    ParseOne(parts[k] + [c]);
    assert parts == parts[..k] + [parts[k]];
    hide ParseEntries;
  }

  lemma FirstBlankIdle(parts: seq<string>, c: char)
    requires parts != [] && IsSpace(c)
    ensures ParseEntries(InFront(c, parts)) == ParseEntries(parts)
  {
    var first := [c] + parts[0];
    assert first[1..] == parts[0] && ParseEntry(first) == ParseEntry(parts[0]);
    hide IsSpace, ParseEntry, TrimSpace;
    assert InFront(c, parts)[1..] == parts[1..];
  }

  // Any string parses to what its comma-separated entries read as, in order; entries
  // that read as no mount are skipped, and nothing else is.
  lemma ParseIsEntries(spec: string)
    ensures Parse(spec) == ParseEntries(Split(spec, ','))
    ensures Join(Split(spec, ','), ',') == spec
    ensures forall k :: 0 <= k < |Split(spec, ',')| ==> ',' !in Split(spec, ',')[k]
  {
    LeftTrimIdle(spec);
    RightTrimIdle(TrimLeft(spec));
    JoinSplit(spec, ',');
    SplitFacts(spec, ',');
    if TrimSpace(spec) == "" {
      assert Split("", ',') == [""];
      ParseOne("");
    }
    hide Split, ParseEntries, IsSpace, Join;
  }

  lemma {:induction false} JoinSplit(s: string, sep: char)
    ensures Join(Split(s, sep), sep) == s
  {
    if s != "" {
      var parts, rest := Split(s, sep), Split(s[1..], sep);
      JoinSplit(s[1..], sep);
      assert s == [s[0]] + s[1..];
      if s[0] == sep {
        assert parts[1..] == rest;
      } else {
        assert parts[0] == [s[0]] + rest[0] && parts[1..] == rest[1..];
      }
    }
  }

  lemma {:induction false} JoinAppend(a: seq<string>, b: seq<string>, sep: char)
    requires a != [] && b != []
    ensures Join(a + b, sep) == Join(a, sep) + [sep] + Join(b, sep)
  {
    assert (a + b)[1..] == a[1..] + b && (a + b)[0] == a[0];
    if |a| > 1 {
      JoinAppend(a[1..], b, sep);
    } else {
      assert a[1..] + b == b;
    }
  }

  lemma {:induction false} EntriesAppend(a: seq<Mount>, b: seq<Mount>)
    ensures Entries(a + b) == Entries(a) + Entries(b)
  {
    hide Entry;
    if a == [] {
      assert a + b == b;
    } else {
      EntriesAppend(a[1..], b);
      assert (a + b)[1..] == a[1..] + b && (a + b)[0] == a[0];
    }
  }

  // The text for any list of mounts: "dns:path" for each with both halves set, in
  // order, with a comma between.
  lemma FormatText(m: Mount, a: seq<Mount>, b: seq<Mount>)
    ensures Format([m]) == if m.dns != "" && m.path != "" then m.dns + [':'] + m.path else ""
    ensures Format([]) == ""
    ensures Format(a + b) == if Entries(a) == [] then Format(b) else if Entries(b) == [] then Format(a)
                             else Format(a) + [','] + Format(b)
    ensures Entries(a) == [] <==> forall i :: 0 <= i < |a| ==> a[i].dns == "" || a[i].path == ""
  {
    assert [m][1..] == [] && Entries([]) == [];
    EntriesAppend(a, b);
    if Entries(a) != [] && Entries(b) != [] {
      JoinAppend(Entries(a), Entries(b), ',');
    } else if Entries(a) == [] {
      assert Entries(a) + Entries(b) == Entries(b);
    } else {
      assert Entries(a) + Entries(b) == Entries(a);
    }
    NoEntries(a);
  }

  lemma {:induction false} NoEntries(a: seq<Mount>)
    ensures Entries(a) == [] <==> forall i :: 0 <= i < |a| ==> !Mountable(a[i])
  {
    if a != [] {
      NoEntries(a[1..]);
      assert forall i :: 0 < i < |a| ==> a[i] == a[1..][i - 1];
      if Entries(a) == [] {
        assert !Mountable(a[0]) && Entries(a[1..]) == [];
      }
    }
  }
}
