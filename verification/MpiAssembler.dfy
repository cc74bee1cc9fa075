// The MPI Assembler: rank the members by entity id, build the peer manifest,
// publish it once.

module MpiAssembler {
  import opened Options
  import opened CohortTypes
  import opened StringOrder

  // What the manifest takes from a member.
  datatype Seat = Seat(entity: EntityID, address: string)

  function Seats(members: seq<Observation>): seq<Seat> {
    seq(|members|, i requires 0 <= i < |members| => Seat(members[i].id, members[i].address))
  }

  // No seat comes after one with a greater id.
  ghost predicate Ordered(seats: seq<Seat>) {
    forall i, j :: 0 <= i < j < |seats| ==> !Before(seats[j].entity, seats[i].entity)
  }

  // Any order sort.Slice may leave the members in: sorted by id, not stable.
  ghost predicate Ranking(seats: seq<Seat>, ordered: seq<Seat>) {
    Ordered(ordered) && multiset(ordered) == multiset(seats)
  }

  function Inserted(seat: Seat, ordered: seq<Seat>): (r: seq<Seat>)
    ensures multiset(r) == multiset(ordered) + multiset{seat}
  {
    if ordered == [] || Before(seat.entity, ordered[0].entity) then
      assert ordered == [] + ordered;
      [seat] + ordered
    else
      assert ordered == [ordered[0]] + ordered[1..];
      [ordered[0]] + Inserted(seat, ordered[1..])
  }

  lemma {:induction false} InsertedOrdered(seat: Seat, ordered: seq<Seat>)
    requires Ordered(ordered)
    ensures Ordered(Inserted(seat, ordered))
  {
    var r := Inserted(seat, ordered);
    if ordered == [] {
    } else if Before(seat.entity, ordered[0].entity) {
      forall i, j | 0 <= i < j < |r| ensures !Before(r[j].entity, r[i].entity) {
        if i == 0 {
          BeforeIsTotal(seat.entity, ordered[0].entity);
          if Before(r[j].entity, seat.entity) {
            BeforeIsTransitive(r[j].entity, seat.entity, ordered[0].entity);
          }
          BeforeIsTotal(ordered[0].entity, ordered[0].entity);
        }
      }
    } else {
      InsertedOrdered(seat, ordered[1..]);
      forall j | 0 < j < |r| ensures !Before(r[j].entity, r[0].entity) {
        assert r[j] in multiset(r[1..]);
        assert multiset(r[1..]) == multiset(ordered[1..]) + multiset{seat};
        if r[j] != seat {
          assert r[j] in ordered[1..];
        }
      }
    }
  }

  function RankedSeats(seats: seq<Seat>): (r: seq<Seat>)
    ensures multiset(r) == multiset(seats)
  {
    if seats == [] then []
    else
      assert seats == [seats[0]] + seats[1..];
      Inserted(seats[0], RankedSeats(seats[1..]))
  }

  lemma {:induction false} RankedSeatsIsRanking(seats: seq<Seat>)
    ensures Ranking(seats, RankedSeats(seats))
  {
    if seats != [] {
      RankedSeatsIsRanking(seats[1..]);
      InsertedOrdered(seats[0], RankedSeats(seats[1..]));
    }
  }

  // The library's sort: any function that ranks, however it breaks ties.
  ghost predicate IsSort(sort: seq<Seat> -> seq<Seat>) {
    forall seats :: Ranking(seats, sort(seats))
  }

  lemma InsertionIsSort()
    ensures IsSort(RankedSeats)
  {
    forall seats ensures Ranking(seats, RankedSeats(seats)) {
      RankedSeatsIsRanking(seats);
    }
  }

  datatype Peer = Peer(rank: nat, entity: string, address: string)

  datatype PeerManifest = PeerManifest(cohort: string, peers: seq<Peer>)

  function ManifestOf(ordered: seq<Seat>): PeerManifest {
    PeerManifest(if ordered == [] then "empty" else ordered[0].entity,
                 seq(|ordered|, r requires 0 <= r < |ordered| => Peer(r, ordered[r].entity, ordered[r].address)))
  }

  function ManifestKey(cohort: string): string {
    "manifests/" + cohort + "/peers.json"
  }

  datatype AssembleError = ZeroMembers | NoAddress(entity: EntityID, rank: nat) | NoPublisher | PublishFailed(key: string)

  // `fails` is the publisher's answer to a key and manifest.
  datatype Publisher = Publisher(fails: (string, PeerManifest) -> bool)

  datatype Publication = Publication(key: string, manifest: PeerManifest)

  predicate AllAddressed(seats: seq<Seat>) {
    forall i :: 0 <= i < |seats| ==> seats[i].address != ""
  }

  // The publication Assemble makes of members ranked in this order.
  function PublicationOf(ordered: seq<Seat>): Publication {
    Publication(ManifestKey(ManifestOf(ordered).cohort), ManifestOf(ordered))
  }

  predicate Accepts(publisher: Publisher, p: Publication) {
    !publisher.fails(p.key, p.manifest)
  }

  // The key is the cohort's own.
  lemma KeysDiffer(a: string, b: string)
    ensures ManifestKey(a) == "manifests/" + a + "/peers.json"
    ensures ManifestKey(a) == ManifestKey(b) ==> a == b
  {
    if ManifestKey(a) == ManifestKey(b) {
      var head, tail := "manifests/", "/peers.json";
      SameMiddle(head, a, b, tail);
    }
  }

  lemma SameMiddle(head: string, a: string, b: string, tail: string)
    requires head + a + tail == head + b + tail
    ensures a == b
  {
    var whole := head + a + tail;
    assert |a| == |b|;
    assert a == whole[|head|..|head| + |a|] == b;
  }

  // The first of the ordered seats that has no address.
  ghost predicate FirstUnaddressed(ordered: seq<Seat>, rank: nat, entity: EntityID) {
    rank < |ordered| && ordered[rank] == Seat(entity, "") && AllAddressed(ordered[..rank])
  }

  // The ranking loop: a peer per seat, until one has no address.
  method RankPeers(ordered: seq<Seat>) returns (err: Option<AssembleError>, peers: seq<Peer>)
    ensures err.None? <==> AllAddressed(ordered)
    ensures err.None? ==> peers == ManifestOf(ordered).peers
    ensures err.Some? ==> err.value.NoAddress? && FirstUnaddressed(ordered, err.value.rank, err.value.entity)
  {
    peers := [];
    for rank := 0 to |ordered|
      invariant |peers| == rank
      invariant forall k :: 0 <= k < rank ==> peers[k] == Peer(k, ordered[k].entity, ordered[k].address)
      invariant AllAddressed(ordered[..rank])
    {
      if ordered[rank].address == "" {
        return Some(NoAddress(ordered[rank].entity, rank)), peers;
      }
      peers := peers + [Peer(rank, ordered[rank].entity, ordered[rank].address)];
    }
    assert ordered[..|ordered|] == ordered;
    err := None;
  }

  lemma AddressesOf(members: seq<Observation>)
    ensures AllAddressed(Seats(members)) <==> forall i :: 0 <= i < |members| ==> members[i].address != ""
    ensures members == [] ==> forall i :: !(0 <= i < |members| && members[i].address == "")
  {
    assert forall i :: 0 <= i < |members| ==> Seats(members)[i].address == members[i].address;
  }

  // Assemble succeeds exactly when there are members, all have an address and the
  // publisher accepts; it publishes at most once, one peer per member at that
  // member's address, ranked as the sort leaves them.
  method Assemble(members: seq<Observation>, sort: seq<Seat> -> seq<Seat>, publisher: Option<Publisher>)
    returns (err: Option<AssembleError>, published: seq<Publication>)
    requires IsSort(sort)
    ensures published == if members != [] && AllAddressed(Seats(members)) && publisher.Some?
                         then [PublicationOf(sort(Seats(members)))] else []
    ensures err.None? <==> published != [] && Accepts(publisher.value, PublicationOf(sort(Seats(members))))
    ensures published != [] ==> TellsOf(published[0], members)
    ensures err.Some? && err.value.NoAddress? ==> FirstUnaddressed(sort(Seats(members)), err.value.rank, err.value.entity)
    ensures err == Some(ZeroMembers) <==> members == []
    ensures err.Some? && err.value.NoAddress? <==> exists i :: 0 <= i < |members| && members[i].address == ""
    ensures err == Some(NoPublisher) <==>
              members != [] && publisher.None? && forall i :: 0 <= i < |members| ==> members[i].address != ""
    ensures err.Some? && err.value.PublishFailed? ==> published != [] && err.value.key == published[0].key
  {
    AddressesOf(members);
    if |members| == 0 {
      return Some(ZeroMembers), [];
    }
    var ordered := sort(Seats(members));
    MultisetFacts(Seats(members), ordered);
    PublicationTells(members, ordered);
    hide TellsOf;
    var bad, peers := RankPeers(ordered);
    if bad.Some? {
      return bad, [];
    }
    var manifest := PeerManifest(ordered[0].entity, peers);
    assert manifest == ManifestOf(ordered);
    hide Seats, ManifestKey, ManifestOf, AllAddressed;
    var key := ManifestKey(manifest.cohort);
    if publisher.None? {
      return Some(NoPublisher), [];
    }
    published := [Publication(key, manifest)];
    err := if publisher.value.fails(key, manifest) then Some(PublishFailed(key)) else None;
  }

  lemma MultisetFacts(seats: seq<Seat>, ordered: seq<Seat>)
    requires multiset(ordered) == multiset(seats)
    ensures |ordered| == |seats|
    ensures AllAddressed(ordered) <==> AllAddressed(seats)
    ensures forall x :: x in ordered <==> x in seats
  {
    assert |ordered| == |multiset(ordered)| == |multiset(seats)| == |seats|;
    assert forall x :: x in ordered <==> x in multiset(ordered);
    assert forall x :: x in seats <==> x in multiset(seats);
    assert AllAddressed(ordered) <==> forall x :: x in ordered ==> x.address != "";
    assert AllAddressed(seats) <==> forall x :: x in seats ==> x.address != "";
  }

  // A manifest's entities: ranks 0..n-1 in strictly increasing id order, one per
  // member, when the ids are distinct.
  lemma RanksAreDistinct(seats: seq<Seat>, ordered: seq<Seat>)
    requires Ranking(seats, ordered)
    requires forall i, j :: 0 <= i < j < |seats| ==> seats[i].entity != seats[j].entity
    ensures |ManifestOf(ordered).peers| == |seats|
    ensures forall i, j :: 0 <= i < j < |ordered| ==> Before(ordered[i].entity, ordered[j].entity)
    ensures forall i :: 0 <= i < |seats| ==> exists r :: 0 <= r < |ordered| && ordered[r] == seats[i]
  {
    MultisetFacts(seats, ordered);
    forall i, j | 0 <= i < j < |ordered| ensures Before(ordered[i].entity, ordered[j].entity) {
      BeforeIsTotal(ordered[i].entity, ordered[j].entity);
      if ordered[i].entity == ordered[j].entity {
        TwicePresent(ordered, i, j);
        assert ordered[i] in seats && ordered[j] in seats;
        var p :| 0 <= p < |seats| && seats[p] == ordered[i];
        var q :| 0 <= q < |seats| && seats[q] == ordered[j];
        assert p == q;
        OncePresent(seats, p);
      }
    }
    forall i | 0 <= i < |seats| ensures exists r :: 0 <= r < |ordered| && ordered[r] == seats[i] {
      assert seats[i] in ordered;
    }
  }

  lemma TwicePresent(s: seq<Seat>, i: nat, j: nat)
    requires i < j < |s|
    ensures s[i] == s[j] ==> multiset(s)[s[i]] >= 2
  {
    assert s == s[..j] + s[j..];
    assert s[i] in s[..j] && s[j] in s[j..];
  }

  lemma OncePresent(s: seq<Seat>, p: nat)
    requires p < |s| && forall i, j :: 0 <= i < j < |s| ==> s[i].entity != s[j].entity
    ensures multiset(s)[s[p]] == 1
  {
    assert s == s[..p] + ([s[p]] + s[p + 1..]);
    assert s[p] !in s[..p] && s[p] !in s[p + 1..];
  }

  // ---- what a publication says -----------------------------------------------------

  function PeerPair(p: Peer): (string, string) {
    (p.entity, p.address)
  }

  function MemberPair(m: Observation): (string, string) {
    (m.id, m.address)
  }

  // One peer per member, each with its own member's address, ranked from 0 with no id
  // before a smaller one; named after the smallest id, and kept under that name.
  ghost predicate TellsOf(pub: Publication, members: seq<Observation>) {
    var peers := pub.manifest.peers;
    && |peers| == |members|
    && (forall r :: 0 <= r < |peers| ==> peers[r].rank == r)
    && multiset(Mapped(peers, PeerPair))
       == multiset(Mapped(members, MemberPair))
    && (forall q, r :: 0 <= q < r < |peers| ==> !Before(peers[r].entity, peers[q].entity))
    && (exists i :: 0 <= i < |members| && members[i].id == pub.manifest.cohort)
    && (forall i :: 0 <= i < |members| ==> !Before(members[i].id, pub.manifest.cohort))
    && pub.key == ManifestKey(pub.manifest.cohort)
  }

  function Mapped<T, U>(s: seq<T>, f: T -> U): seq<U> {
    seq(|s|, i requires 0 <= i < |s| => f(s[i]))
  }

  // Mapping keeps permutations.
  lemma {:induction false} MappedAlike<T, U>(a: seq<T>, b: seq<T>, f: T -> U)
    requires multiset(a) == multiset(b)
    ensures multiset(Mapped(a, f)) == multiset(Mapped(b, f))
  {
    if a == [] {
      assert |b| == |multiset(b)| == 0;
    } else {
      var k := FoundIn(a, b);
      var rest := b[..k] + b[k + 1..];
      hide Mapped;
      MappedAlike(a[1..], rest, f);
      MappedFirst(a, f);
      MappedWithout(b, k, f);
    }
  }

  lemma FoundIn<T>(a: seq<T>, b: seq<T>) returns (k: nat)
    requires multiset(a) == multiset(b) && a != []
    ensures k < |b| && b[k] == a[0] && multiset(a[1..]) == multiset(b[..k] + b[k + 1..])
  {
    assert a[0] in multiset(b);
    k :| 0 <= k < |b| && b[k] == a[0];
    Without(b, k);
    WithoutFirst(a);
  }

  lemma MappedFirst<T, U>(s: seq<T>, f: T -> U)
    requires s != []
    ensures multiset(Mapped(s, f)) == multiset(Mapped(s[1..], f)) + multiset{f(s[0])}
  {
    WithoutFirst(Mapped(s, f));
    assert Mapped(s, f)[1..] == Mapped(s[1..], f);
  }

  lemma MappedWithout<T, U>(s: seq<T>, k: nat, f: T -> U)
    requires k < |s|
    ensures multiset(Mapped(s, f)) == multiset(Mapped(s[..k] + s[k + 1..], f)) + multiset{f(s[k])}
  {
    Without(Mapped(s, f), k);
    assert Mapped(s[..k] + s[k + 1..], f) == Mapped(s, f)[..k] + Mapped(s, f)[k + 1..];
  }

  lemma PublicationTells(members: seq<Observation>, ordered: seq<Seat>)
    requires members != [] && Ranking(Seats(members), ordered)
    ensures TellsOf(PublicationOf(ordered), members)
  {
    var seats := Seats(members);
    hide ManifestKey;
    MultisetFacts(seats, ordered);
    SamePairs(members, ordered);
    SmallestFirst(seats, ordered);
    assert forall i :: 0 <= i < |members| ==> seats[i].entity == members[i].id;
    hide Mapped, Ordered, Before, Seats;
  }

  // In particular every peer is at its own member's address, when ids differ.
  lemma PeerAtOwnAddress(pub: Publication, members: seq<Observation>, r: nat, i: nat)
    requires TellsOf(pub, members) && r < |pub.manifest.peers| && i < |members|
    requires forall j, k :: 0 <= j < k < |members| ==> members[j].id != members[k].id
    requires pub.manifest.peers[r].entity == members[i].id
    ensures pub.manifest.peers[r].address == members[i].address
  {
    hide ManifestKey, Before;
    var peers := pub.manifest.peers;
    var pairs, own := Mapped(peers, PeerPair), Mapped(members, MemberPair);
    assert pairs[r] == PeerPair(peers[r]) && pairs[r] in multiset(pairs);
    assert pairs[r] in own;
    var j :| 0 <= j < |own| && own[j] == pairs[r];
    assert own[j] == MemberPair(members[j]);
    assert members[j].id == members[i].id;
  }

  lemma SmallestFirst(seats: seq<Seat>, ordered: seq<Seat>)
    requires Ranking(seats, ordered) && seats != []
    ensures |ordered| == |seats|
    ensures exists i :: 0 <= i < |seats| && seats[i].entity == ordered[0].entity
    ensures forall i :: 0 <= i < |seats| ==> !Before(seats[i].entity, ordered[0].entity)
  {
    MultisetFacts(seats, ordered);
    assert ordered[0] in seats;
    forall i | 0 <= i < |seats| ensures !Before(seats[i].entity, ordered[0].entity) {
      assert seats[i] in ordered;
      var r :| 0 <= r < |ordered| && ordered[r] == seats[i];
      if r == 0 {
        BeforeIsTotal(seats[i].entity, seats[i].entity);
      }
    }
  }

  lemma SamePairs(members: seq<Observation>, ordered: seq<Seat>)
    requires multiset(ordered) == multiset(Seats(members))
    ensures multiset(Mapped(PublicationOf(ordered).manifest.peers, PeerPair))
         == multiset(Mapped(members, MemberPair))
  {
    hide ManifestKey;
    var f := (t: Seat) => (t.entity, t.address);
    MappedAlike(ordered, Seats(members), f);
    assert Mapped(PublicationOf(ordered).manifest.peers, PeerPair) == Mapped(ordered, f);
    assert Mapped(members, MemberPair) == Mapped(Seats(members), f);
  }

  // ---- reproducible ranks ------------------------------------------------------

  // Members that share an id also share an address.
  ghost predicate Consistent(seats: seq<Seat>) {
    forall i, j :: 0 <= i < |seats| && 0 <= j < |seats| && seats[i].entity == seats[j].entity ==> seats[i] == seats[j]
  }

  ghost predicate Reproducible(seats: seq<Seat>) {
    forall a, b :: Ranking(seats, a) && Ranking(seats, b) ==> ManifestOf(a) == ManifestOf(b)
  }

  lemma WithoutFirst<T>(s: seq<T>)
    requires s != []
    ensures multiset(s[1..]) == multiset(s) - multiset{s[0]}
  {
    assert s == [s[0]] + s[1..];
  }

  // Two rankings of consistent seats start with the same seat.
  lemma SameFirst(a: seq<Seat>, b: seq<Seat>)
    requires Ordered(a) && Ordered(b) && multiset(a) == multiset(b) && Consistent(a) && a != []
    ensures b != [] && a[0] == b[0]
  {
    MultisetFacts(a, b);
    assert a[0] in b && b[0] in a;
    var i :| 0 <= i < |b| && b[i] == a[0];
    var j :| 0 <= j < |a| && a[j] == b[0];
    BeforeIsTotal(a[0].entity, b[0].entity);
    hide Before;
    assert i > 0 ==> !Before(b[i].entity, b[0].entity);
    assert j > 0 ==> !Before(a[j].entity, a[0].entity);
  }

  lemma {:induction false} ConsistentRankingUnique(a: seq<Seat>, b: seq<Seat>)
    requires Ordered(a) && Ordered(b) && multiset(a) == multiset(b) && Consistent(a)
    ensures a == b
  {
    hide Before;
    MultisetFacts(a, b);
    if a != [] {
      SameFirst(a, b);
      WithoutFirst(a);
      WithoutFirst(b);
      ConsistentRankingUnique(a[1..], b[1..]);
      assert a == [a[0]] + a[1..] == [b[0]] + b[1..] == b;
    }
  }

  lemma SwappedRanking(a: seq<Seat>, i: nat, j: nat)
    requires i < j < |a| && Ordered(a) && a[i].entity == a[j].entity
    ensures Ordered(a[i := a[j]][j := a[i]]) && multiset(a[i := a[j]][j := a[i]]) == multiset(a)
  {
    var b := a[i := a[j]][j := a[i]];
    assert forall k :: 0 <= k < |a| ==> b[k].entity == a[k].entity;
  }

  // The manifest is the same whatever order the members come in and however the
  // sort breaks ties, exactly when members that share an id share an address.
  lemma ReproducibleIff(seats: seq<Seat>)
    ensures Reproducible(seats) <==> Consistent(seats)
  {
    if Consistent(seats) {
      forall a, b | Ranking(seats, a) && Ranking(seats, b) ensures ManifestOf(a) == ManifestOf(b) {
        ConsistentUpToOrder(seats, a);
        ConsistentRankingUnique(a, b);
      }
    } else {
      var a, b := TwoManifests(seats);
    }
  }

  // Otherwise two seats of one id can change places.
  lemma TwoManifests(seats: seq<Seat>) returns (a: seq<Seat>, b: seq<Seat>)
    requires !Consistent(seats)
    ensures Ranking(seats, a) && Ranking(seats, b) && ManifestOf(a) != ManifestOf(b)
  {
    a := RankedSeats(seats);
    RankedSeatsIsRanking(seats);
    hide RankedSeats, Before;
    if Consistent(a) {
      ConsistentUpToOrder(a, seats);
    }
    var i, j :| 0 <= i < j < |a| && a[i].entity == a[j].entity && a[i] != a[j];
    SwappedRanking(a, i, j);
    hide Ordered;
    b := a[i := a[j]][j := a[i]];
    assert ManifestOf(a).peers[i] != ManifestOf(b).peers[i];
  }

  lemma ConsistentUpToOrder(seats: seq<Seat>, other: seq<Seat>)
    requires multiset(seats) == multiset(other) && Consistent(seats)
    ensures Consistent(other)
  {
    MultisetFacts(seats, other);
    forall i, j | 0 <= i < |other| && 0 <= j < |other| && other[i].entity == other[j].entity ensures other[i] == other[j] {
      assert other[i] in seats && other[j] in seats;
    }
  }

  // In particular, distinct ids: the same manifest and key for every permutation
  // of the members, by whatever sorts.
  lemma PermutationInvariant(members: seq<Observation>, permuted: seq<Observation>,
                             sort: seq<Seat> -> seq<Seat>, other: seq<Seat> -> seq<Seat>)
    requires multiset(members) == multiset(permuted) && IsSort(sort) && IsSort(other)
    requires forall i, j :: 0 <= i < j < |members| ==> members[i].id != members[j].id
    ensures PublicationOf(sort(Seats(members))) == PublicationOf(other(Seats(permuted)))
  {
    hide ManifestOf, ManifestKey;
    SeatsOfPermutation(members, permuted);
    assert Consistent(Seats(members));
    SameRanking(Seats(members), Seats(permuted), sort, other);
  }

  lemma SameRanking(seats: seq<Seat>, others: seq<Seat>, sort: seq<Seat> -> seq<Seat>, other: seq<Seat> -> seq<Seat>)
    requires multiset(seats) == multiset(others) && Consistent(seats) && IsSort(sort) && IsSort(other)
    ensures sort(seats) == other(others)
  {
    assert Ranking(seats, sort(seats)) && Ranking(others, other(others));
    hide IsSort, Consistent, Ordered;
    ConsistentUpToOrder(seats, sort(seats));
    ConsistentRankingUnique(sort(seats), other(others));
  }

  lemma SeatsOfPermutation(members: seq<Observation>, permuted: seq<Observation>)
    requires multiset(members) == multiset(permuted)
    ensures multiset(Seats(members)) == multiset(Seats(permuted))
  {
    var f := (m: Observation) => Seat(m.id, m.address);
    MappedAlike(members, permuted, f);
    assert Seats(members) == Mapped(members, f) && Seats(permuted) == Mapped(permuted, f);
  }

  lemma Without<T>(s: seq<T>, k: nat)
    requires k < |s|
    ensures multiset(s) == multiset(s[..k] + s[k + 1..]) + multiset{s[k]}
  {
    assert s == s[..k] + ([s[k]] + s[k + 1..]);
  }
}
