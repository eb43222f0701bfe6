/** The data shaping of the vote-record page
    (src/templates/votelog-template.js): every voter's record is joined with
    the person's record, the joined list is split into the four vote groups
    that the waffle chart draws, and the supporting documents that have a
    link are listed. The page query's results are the inputs. */
module Votelog {
  import opened Values
  import opened Lodash
  import opened WaffleChart

  // ---------------------------------------------------------------------
  // Joining the vote records with the people table

  /** The `_.find(allPeopleYaml.nodes, ["id", votelog.id])` test: the person
      has an `id` equal to the vote record's. A vote record without an `id`
      matches nobody. */
  predicate SameId(vote: Record, person: Record)
    ensures "id" !in vote ==> !SameId(vote, person)
    ensures "id" in vote ==> (SameId(vote, person) <==> Get(person, "id") == Get(vote, "id"))
  {
    "id" in vote && "id" in person && person["id"] == vote["id"]
  }

  function MatchesId(vote: Record): Record -> bool
  {
    person => SameId(vote, person)
  }

  /** `{ ...votelog, ...matched }`: the properties of both records, those of
      the matched person taking precedence; spreading `undefined` adds nothing. */
  function Merge(vote: Record, matched: Option<Record>): (r: Record)
    ensures matched.None? ==> r == vote
    ensures matched.Some? ==> r.Keys == vote.Keys + matched.value.Keys
    ensures matched.Some? ==> forall k :: k in matched.value ==> r[k] == matched.value[k]
    ensures matched.Some? ==> forall k :: k in vote && k !in matched.value ==> r[k] == vote[k]
  {
    match matched
    case None => vote
    case Some(person) => vote + person
  }

  /** What the page's `combined` list holds once every vote record has been
      pushed: one merged record per vote record, in the same order. */
  function Joined(votes: seq<Record>, people: seq<Record>): (r: seq<Record>)
    ensures |r| == |votes|
    ensures forall i :: 0 <= i < |votes| ==> r[i] == Merge(votes[i], Find(people, MatchesId(votes[i])))
  {
    if votes == [] then []
    else
      var n := |votes| - 1;
      Joined(votes[..n], people) + [Merge(votes[n], Find(people, MatchesId(votes[n])))]
  }

  /** The `combined` loop: starting from `[]`, push the merge of each vote
      record with its person. */
  method Combine(votes: seq<Record>, people: seq<Record>) returns (combined: seq<Record>)
    ensures combined == Joined(votes, people)
  {
    combined := [];
    for i := 0 to |votes|
      invariant combined == Joined(votes[..i], people)
    {
      var matched := Find(people, MatchesId(votes[i]));
      combined := combined + [Merge(votes[i], matched)];
      assert votes[..i + 1][..i] == votes[..i];
    }
    assert votes[..|votes|] == votes;
  }

  /** Entry `i` of the join is vote record `i` merged with the FIRST person of
      the same id, whose properties win. */
  lemma JoinedEntry(votes: seq<Record>, people: seq<Record>, i: nat, j: nat)
    requires i < |votes| && j < |people|
    requires SameId(votes[i], people[j]) && forall l :: 0 <= l < j ==> !SameId(votes[i], people[l])
    ensures var entry := Joined(votes, people)[i];
      && entry.Keys == votes[i].Keys + people[j].Keys
      && (forall k :: k in people[j] ==> entry[k] == people[j][k])
      && (forall k :: k in votes[i] && k !in people[j] ==> entry[k] == votes[i][k])
  {
    var found := Find(people, MatchesId(votes[i]));
    assert MatchesId(votes[i])(people[j]);
    var j' :| 0 <= j' < |people| && people[j'] == found.value && MatchesId(votes[i])(people[j']) &&
              forall l :: 0 <= l < j' ==> !MatchesId(votes[i])(people[l]);
    assert j' == j;
  }

  /** A vote record whose id matches no person joins unchanged, with no error. */
  lemma JoinedUnmatched(votes: seq<Record>, people: seq<Record>, i: nat)
    requires i < |votes|
    requires forall j :: 0 <= j < |people| ==> !SameId(votes[i], people[j])
    ensures Joined(votes, people)[i] == votes[i]
  {
    assert forall j :: 0 <= j < |people| ==> !MatchesId(votes[i])(people[j]);
  }

  /** The join does not fail on a vote record that matches nobody, but that
      record keeps no `fields` of its own, so drawing its cell in the chart
      reads `fields.slug` of `undefined` and throws. */
  lemma UnmatchedCellThrows(votes: seq<Record>, people: seq<Record>, i: nat)
    requires i < |votes| && "fields" !in votes[i]
    requires forall j :: 0 <= j < |people| ==> !SameId(votes[i], people[j])
    ensures CellTooltip(Joined(votes, people)[i]).None?
  {
    JoinedUnmatched(votes, people, i);
  }

  // ---------------------------------------------------------------------
  // filterVote and the four vote groups

  /** Vote codes of a votelog entry's `value`. */
  const Approve := "1"
  const Disprove := "2"
  const Abstained := "3"
  const Absent := "4"

  /** The test `p.key === key` of a votelog entry. */
  predicate IsEntryFor(key: string, entry: Value)
  {
    entry.Obj? && "key" in entry.fields && entry.fields["key"] == Str(key)
  }

  function EntryFor(key: string): Value -> bool
  {
    entry => IsEntryFor(key, entry)
  }

  /** `_.find(o.votelog, p => p.key === key)`: the first entry of the record's
      votelog for the vote event, `undefined` when there is none. */
  function VoteEntry(o: Record, key: string): (r: Option<Value>)
    ensures r.None? <==>
      !("votelog" in o && o["votelog"].List?) ||
      forall j :: 0 <= j < |o["votelog"].items| ==> !IsEntryFor(key, o["votelog"].items[j])
    ensures r.Some? ==>
      && "votelog" in o && o["votelog"].List?
      && exists i :: 0 <= i < |o["votelog"].items| && o["votelog"].items[i] == r.value &&
           IsEntryFor(key, r.value) && forall j :: 0 <= j < i ==> !IsEntryFor(key, o["votelog"].items[j])
  {
    if "votelog" in o && o["votelog"].List? then Find(o["votelog"].items, EntryFor(key)) else None
  }

  predicate HasEntry(o: Record, key: string)
  {
    VoteEntry(o, key).Some?
  }

  /** `_.find(...).value === value` for a record whose entry exists. */
  predicate VotedFor(o: Record, key: string, value: string)
    ensures VotedFor(o, key, value) ==> HasEntry(o, key)
    ensures VotedFor(o, key, value) ==>
      VoteEntry(o, key).value.Obj? && Get(VoteEntry(o, key).value.fields, "value") == Some(Str(value))
  {
    match VoteEntry(o, key)
    case None => false
    case Some(entry) => entry.Obj? && "value" in entry.fields && entry.fields["value"] == Str(value)
  }

  function Voted(key: string, value: string): Record -> bool
  {
    o => VotedFor(o, key, value)
  }

  function Lacks(key: string): Record -> bool
  {
    o => !HasEntry(o, key)
  }

  /** The result of code that can throw: its value, or the `TypeError` raised
      while looking at element `at` of the list. */
  datatype Outcome<T> = Ok(value: T) | TypeError(at: nat)

  /** `filterVote(combined, key, value)`. `_.filter` walks the list in order
      and reading `.value` of the `undefined` that `_.find` returns for a
      record without an entry for `key` throws, so the first such record
      stops it. Otherwise the result is the order-preserving subsequence of
      exactly the records that voted `value`. */
  function FilterVote(combined: seq<Record>, key: string, value: string): (r: Outcome<seq<Record>>)
    ensures r.Ok? <==> forall i :: 0 <= i < |combined| ==> HasEntry(combined[i], key)
    ensures r.TypeError? ==>
      && r.at < |combined| && !HasEntry(combined[r.at], key)
      && forall j :: 0 <= j < r.at ==> HasEntry(combined[j], key)
    ensures r.Ok? ==>
      var idx := FilterIndices(combined, Voted(key, value));
      && |r.value| == |idx|
      && forall k :: 0 <= k < |idx| ==> r.value[k] == combined[idx[k]]
    ensures r.Ok? ==> forall o :: o in r.value <==> o in combined && VotedFor(o, key, value)
  {
    match FindIndex(combined, Lacks(key))
    case Some(i) => TypeError(i)
    case None => Ok(Filter(combined, Voted(key, value)))
  }

  /** The four lists `approve`, `disprove`, `abstained` and `absent`. */
  datatype Buckets = Buckets(approve: seq<Record>, disprove: seq<Record>,
                             abstained: seq<Record>, absent: seq<Record>)

  /** The four `filterVote` calls, in the page's order; the first one throws
      exactly when any of them would. */
  function Partition(combined: seq<Record>, eventId: string): (r: Outcome<Buckets>)
    ensures r.Ok? <==> forall i :: 0 <= i < |combined| ==> HasEntry(combined[i], eventId)
    ensures r.TypeError? ==>
      && r.at < |combined| && !HasEntry(combined[r.at], eventId)
      && forall j :: 0 <= j < r.at ==> HasEntry(combined[j], eventId)
  {
    match FilterVote(combined, eventId, Approve)
    case TypeError(i) => TypeError(i)
    case Ok(approve) =>
      Ok(Buckets(approve,
                 FilterVote(combined, eventId, Disprove).value,
                 FilterVote(combined, eventId, Abstained).value,
                 FilterVote(combined, eventId, Absent).value))
  }

  /** The record voted one of the four codes for the event. */
  predicate HasVoteCode(o: Record, key: string)
  {
    VotedFor(o, key, Approve) || VotedFor(o, key, Disprove) ||
    VotedFor(o, key, Abstained) || VotedFor(o, key, Absent)
  }

  /** In how many of the four groups `o` appears. */
  function Placements(b: Buckets, o: Record): nat
  {
    (if o in b.approve then 1 else 0) + (if o in b.disprove then 1 else 0) +
    (if o in b.abstained then 1 else 0) + (if o in b.absent then 1 else 0)
  }

  /** Each group holds exactly the records with its code, so the groups are
      pairwise disjoint: a record with one of the four codes is in exactly
      one group, any other record in none. */
  lemma BucketMembership(combined: seq<Record>, eventId: string, o: Record)
    requires Partition(combined, eventId).Ok?
    ensures var b := Partition(combined, eventId).value;
      && (o in b.approve <==> o in combined && VotedFor(o, eventId, Approve))
      && (o in b.disprove <==> o in combined && VotedFor(o, eventId, Disprove))
      && (o in b.abstained <==> o in combined && VotedFor(o, eventId, Abstained))
      && (o in b.absent <==> o in combined && VotedFor(o, eventId, Absent))
      && Placements(b, o) == if o in combined && HasVoteCode(o, eventId) then 1 else 0
  {
  }

  /** A record's first entry holds one value, so it voted at most one code. */
  lemma OneCode(o: Record, key: string)
    ensures (if VotedFor(o, key, Approve) then 1 else 0) + (if VotedFor(o, key, Disprove) then 1 else 0) +
            (if VotedFor(o, key, Abstained) then 1 else 0) + (if VotedFor(o, key, Absent) then 1 else 0)
            == if HasVoteCode(o, key) then 1 else 0
  {
  }

  /** Counting the records that voted each code, one record at a time. */
  lemma {:induction false} VoteCounts(xs: seq<Record>, key: string)
    ensures Count(xs, Voted(key, Approve)) + Count(xs, Voted(key, Disprove)) +
            Count(xs, Voted(key, Abstained)) + Count(xs, Voted(key, Absent)) <= |xs|
    ensures (forall i :: 0 <= i < |xs| ==> HasVoteCode(xs[i], key)) ==>
            Count(xs, Voted(key, Approve)) + Count(xs, Voted(key, Disprove)) +
            Count(xs, Voted(key, Abstained)) + Count(xs, Voted(key, Absent)) == |xs|
  {
    if xs != [] {
      var n := |xs| - 1;
      VoteCounts(xs[..n], key);
      OneCode(xs[n], key);
    }
  }

  /** The group sizes add up to at most the number of joined records, and to
      exactly that number when every record carries one of the four codes. */
  lemma BucketSizes(combined: seq<Record>, eventId: string)
    requires Partition(combined, eventId).Ok?
    ensures var b := Partition(combined, eventId).value;
      |b.approve| + |b.disprove| + |b.abstained| + |b.absent| <= |combined|
    ensures var b := Partition(combined, eventId).value;
      (forall i :: 0 <= i < |combined| ==> HasVoteCode(combined[i], eventId)) ==>
        |b.approve| + |b.disprove| + |b.abstained| + |b.absent| == |combined|
  {
    VoteCounts(combined, eventId);
  }

  // ---------------------------------------------------------------------
  // The waffle chart of the four groups

  const VoteColors: seq<string> :=
    ["var(--cl-vote-yes)", "var(--cl-vote-no)", "var(--cl-vote-abstained)", "var(--cl-vote-absent)"]
  const VoteBorderColors: seq<string> :=
    ["var(--cl-vote-yes)", "var(--cl-vote-no)", "var(--cl-vote-abstained)", "var(--cl-black)"]

  /** The page's `<Waffle>`: the four groups, in the order approve,
      disprove, abstained, absent. */
  function VoteWaffle(b: Buckets): (r: seq<seq<Block<Record>>>)
    ensures |r| == 4
    ensures |r[0]| == CeilDiv(|b.approve|, HundredSize) + 1 && r[0][|r[0]| - 1] == Separator
    ensures |r[1]| == CeilDiv(|b.disprove|, HundredSize) + 1 && r[1][|r[1]| - 1] == Separator
    ensures |r[2]| == CeilDiv(|b.abstained|, HundredSize) + 1 && r[2][|r[2]| - 1] == Separator
    ensures |r[3]| == CeilDiv(|b.absent|, HundredSize)
  {
    Waffle([b.approve, b.disprove, b.abstained, b.absent], VoteColors, VoteBorderColors)
  }

  /** The chart shows the four groups in order, each voter once in its
      group's run, with three separator lines: one after every group but
      the absent one. */
  lemma VoteWaffleLayout(b: Buckets)
    ensures var r := VoteWaffle(b);
      && |r| == 4
      && Nodes(r[0]) == b.approve && Nodes(r[1]) == b.disprove
      && Nodes(r[2]) == b.abstained && Nodes(r[3]) == b.absent
      && Separator in r[0] && Separator in r[1] && Separator in r[2] && Separator !in r[3]
      && Separators(Flatten(r)) == 3
  {
    WaffleLayout([b.approve, b.disprove, b.abstained, b.absent], VoteColors, VoteBorderColors);
  }

  // ---------------------------------------------------------------------
  // Supporting documents

  /** The label shown for a document without a title. */
  const DocumentFallback := "เอกสาร"

  /** One download button: the link and the label shown on it. */
  datatype DocumentLink = DocumentLink(href: Value, caption: Value)

  /** The test `doc => doc.link`. */
  predicate HasLink(doc: Record)
    ensures HasLink(doc) ==> "link" in doc && !doc["link"].Null?
    ensures "link" in doc && (doc["link"].List? || doc["link"].Obj?) ==> HasLink(doc)
  {
    Truthy(Get(doc, "link"))
  }

  /** `doc.title || "เอกสาร"`. */
  function Label(doc: Record): (r: Value)
    ensures Truthy(Some(r))
    ensures Truthy(Get(doc, "title")) ==> r == doc["title"]
    ensures !Truthy(Get(doc, "title")) ==> r == Str(DocumentFallback)
  {
    if Truthy(Get(doc, "title")) then doc["title"] else Str(DocumentFallback)
  }

  /** `votelogYaml.document.filter(doc => doc.link).map(...)`: one button per
      document with a truthy link, in the original order, labelled with its
      title or, when the title is missing or falsy, with the fallback. */
  function ShownDocuments(documents: seq<Record>): (r: seq<DocumentLink>)
    ensures var idx := FilterIndices(documents, HasLink);
      && |r| == |idx|
      && forall k :: 0 <= k < |r| ==>
           && "link" in documents[idx[k]] && r[k].href == documents[idx[k]]["link"]
           && Truthy(Some(r[k].href))
           && (Truthy(Get(documents[idx[k]], "title")) ==> r[k].caption == documents[idx[k]]["title"])
           && (!Truthy(Get(documents[idx[k]], "title")) ==> r[k].caption == Str(DocumentFallback))
  {
    var shown := Filter(documents, HasLink);
    seq(|shown|, k requires 0 <= k < |shown| => DocumentLink(shown[k]["link"], Label(shown[k])))
  }
}
