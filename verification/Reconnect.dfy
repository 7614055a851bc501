/** Matching a reopened session's streams to the ones downstream knows (`reconnect.go`). */
module Reconnect {
  import Seqs

  /** A stream: its id, what it carries, and the rest of its description. */
  datatype Stream = Stream(id: string, media: nat, codec: nat, info: nat)

  predicate Alike(a: Stream, b: Stream) {
    a.media == b.media && a.codec == b.codec
  }

  /** `qualifyStreamID`. */
  function Qualify(id: string, qualifier: string): (r: string)
    ensures id <= r && (r[|id|..] == qualifier || id == r) && (id == r ==> id == "" || qualifier == "")
  {
    if qualifier == "" || id == "" then id else id + qualifier
  }

  lemma QualifyInjective(a: string, b: string, q: string)
    requires Qualify(a, q) == Qualify(b, q)
    ensures a == b
  {
    if q != "" && a != "" && b != "" {
      assert (a + q)[..|a|] == a && (b + q)[..|b|] == b;
    }
  }

  ghost predicate DistinctIds(s: seq<Stream>) {
    forall i, j :: 0 <= i < j < |s| ==> s[i].id != s[j].id
  }

  // ---------------------------------------------------------------------
  // A matching of session streams to known ones
  // ---------------------------------------------------------------------

  /** `from` sends session streams to known ones, and `owner` sends them back. */
  ghost predicate Matching(prev: seq<Stream>, next: seq<Stream>, from: map<nat, nat>, owner: map<nat, nat>) {
    && (forall k :: k in from ==> k < |next| && from[k] < |prev| && from[k] in owner && owner[from[k]] == k)
    && (forall i :: i in owner ==> i < |prev| && owner[i] in from && from[owner[i]] == i)
  }

  ghost predicate Unknown(prev: seq<Stream>, id: string) {
    forall i :: 0 <= i < |prev| ==> prev[i].id != id
  }

  /** A session stream as it is known from now on: under the id of the stream it continues, if any. */
  ghost function Known(prev: seq<Stream>, next: seq<Stream>, from: map<nat, nat>, k: nat): Stream
    requires k < |next| && (k in from ==> from[k] < |prev|)
  {
    if k in from then next[k].(id := prev[from[k]].id) else next[k]
  }

  /** The known list is the session's streams, each once. */
  ghost predicate Lists(known: seq<Stream>, order: seq<nat>, prev: seq<Stream>, next: seq<Stream>, from: map<nat, nat>)
  {
    && |known| == |order|
    && (forall k :: k in from ==> from[k] < |prev|)
    && (forall j :: 0 <= j < |order| ==> order[j] < |next| && known[j] == Known(prev, next, from, order[j]))
    && (forall i, j :: 0 <= i < j < |order| ==> order[i] != order[j])
  }

  /** The first known stream with an id. */
  ghost predicate First(prev: seq<Stream>, id: string, i: nat) {
    i < |prev| && prev[i].id == id && forall j :: 0 <= j < i ==> prev[j].id != id
  }

  method FindId(prev: seq<Stream>, id: string) returns (i: int)
    ensures -1 <= i < |prev|
    ensures i >= 0 ==> First(prev, id, i)
    ensures i < 0 ==> Unknown(prev, id)
  {
    for n := 0 to |prev|
      invariant forall k :: 0 <= k < n ==> prev[k].id != id
    {
      if prev[n].id == id {
        return n;
      }
    }
    return -1;
  }

  method FindAlike(prev: seq<Stream>, s: Stream, start: nat) returns (i: int)
    requires start <= |prev|
    ensures i == -1 || start <= i < |prev|
    ensures i >= 0 ==> Alike(prev[i], s) && forall k :: start <= k < i ==> !Alike(prev[k], s)
    ensures i < 0 ==> forall k :: start <= k < |prev| ==> !Alike(prev[k], s)
  {
    for n := start to |prev|
      invariant forall k :: start <= k < n ==> !Alike(prev[k], s)
    {
      if Alike(prev[n], s) {
        return n;
      }
    }
    return -1;
  }

  /** The first known stream of the same media type and codec that is still free. */
  method FindFree(prev: seq<Stream>, s: Stream, matched: seq<bool>) returns (i: int)
    requires |matched| == |prev|
    ensures i == -1 || 0 <= i < |prev|
    ensures i >= 0 ==> Alike(prev[i], s) && !matched[i] && forall k :: 0 <= k < i && Alike(prev[k], s) ==> matched[k]
    ensures i < 0 ==> forall k :: 0 <= k < |prev| && Alike(prev[k], s) ==> matched[k]
  {
    i := FindAlike(prev, s, 0);
    while i >= 0 && matched[i]
      invariant i == -1 || 0 <= i < |prev|
      invariant i >= 0 ==> Alike(prev[i], s) && forall k :: 0 <= k < i && Alike(prev[k], s) ==> matched[k]
      invariant i < 0 ==> forall k :: 0 <= k < |prev| && Alike(prev[k], s) ==> matched[k]
      decreases i >= 0, |prev| - i
    {
      i := FindAlike(prev, s, i + 1);
    }
  }

  // ---------------------------------------------------------------------
  // reconcile
  // ---------------------------------------------------------------------

  /** Which known streams have been continued. */
  ghost predicate Marks(matched: seq<bool>, prev: seq<Stream>, owner: map<nat, nat>) {
    |matched| == |prev| && forall i :: 0 <= i < |matched| ==> (matched[i] <==> i in owner)
  }

  ghost predicate AllDistinct(prev: seq<Stream>, next: seq<Stream>) {
    DistinctIds(prev) && DistinctIds(next)
  }

  /** Positions of session streams left over, in order, none continued; with distinct ids, none known. */
  ghost predicate Leftover(rest: seq<nat>, prev: seq<Stream>, next: seq<Stream>, from: map<nat, nat>, distinct: bool) {
    && (forall u :: 0 <= u < |rest| ==> rest[u] < |next| && rest[u] !in from)
    && (forall u, v :: 0 <= u < v < |rest| ==> rest[u] < rest[v])
    && (distinct ==> forall u :: 0 <= u < |rest| ==> Unknown(prev, next[rest[u]].id))
  }

  /** Session stream k continues the free known stream i. */
  lemma Continue(prev: seq<Stream>, next: seq<Stream>, from: map<nat, nat>, owner: map<nat, nat>, matched: seq<bool>, k: nat, i: nat)
    requires Matching(prev, next, from, owner) && Marks(matched, prev, owner)
    requires k < |next| && k !in from && i < |prev| && !matched[i]
    ensures Matching(prev, next, from[k := i], owner[i := k]) && Marks(matched[i := true], prev, owner[i := k])
  {
  }

  lemma ListOneMore(known: seq<Stream>, order: seq<nat>, prev: seq<Stream>, next: seq<Stream>, from: map<nat, nat>, after: map<nat, nat>, k: nat)
    requires Lists(known, order, prev, next, from) && k < |next| && k !in order
    requires forall m :: m in after ==> after[m] < |prev|
    requires forall m :: m in order ==> (m in from <==> m in after) && (m in from ==> from[m] == after[m])
    ensures Lists(known + [Known(prev, next, after, k)], order + [k], prev, next, after)
  {
    forall j | 0 <= j < |order|
      ensures known[j] == Known(prev, next, after, order[j])
    {
      assert order[j] in order;
    }
  }

  lemma LeftOneMore(rest: seq<nat>, prev: seq<Stream>, next: seq<Stream>, from: map<nat, nat>, distinct: bool, k: nat)
    requires Leftover(rest, prev, next, from, distinct) && k < |next| && k !in from && forall x :: x in rest ==> x < k
    requires distinct ==> Unknown(prev, next[k].id)
    ensures Leftover(rest + [k], prev, next, from, distinct)
  {
    forall u | 0 <= u < |rest|
      ensures rest[u] < k
    {
      assert rest[u] in rest;
    }
  }

  lemma LeftStays(rest: seq<nat>, prev: seq<Stream>, next: seq<Stream>, from: map<nat, nat>, distinct: bool, k: nat, i: nat)
    requires Leftover(rest, prev, next, from, distinct) && k !in rest
    ensures Leftover(rest, prev, next, from[k := i], distinct)
  {
  }

  /** With distinct session ids, nobody has taken this stream's id before it. */
  lemma NotTaken(prev: seq<Stream>, next: seq<Stream>, from: map<nat, nat>, owner: map<nat, nat>, k: nat)
    requires Matching(prev, next, from, owner) && DistinctIds(next) && k < |next|
    requires forall m :: m in from ==> m < k && prev[from[m]].id == next[m].id
    ensures forall i :: i in owner ==> prev[i].id != next[k].id
  {
    forall i | i in owner
      ensures prev[i].id != next[k].id
    {
      assert prev[from[owner[i]]].id == next[owner[i]].id;
    }
  }

  /** How far a matching has come: what the two passes have decided. */
  datatype Match = Match(from: map<nat, nat>, owner: map<nat, nat>, order: seq<nat>, at: seq<nat>, renamed: seq<nat>)

  /** The streams matched so far, and those listed as known. */
  ghost predicate Matched(prev: seq<Stream>, next: seq<Stream>, matched: seq<bool>, known: seq<Stream>, m: Match) {
    Matching(prev, next, m.from, m.owner) && Marks(matched, prev, m.owner) && Lists(known, m.order, prev, next, m.from)
  }

  /** A session stream keeps its id: it is known, and no earlier stream of the session has it. */
  ghost predicate Keeps(prev: seq<Stream>, next: seq<Stream>, k: nat)
    requires k < |next|
  {
    !Unknown(prev, next[k].id) && forall y :: 0 <= y < k ==> next[y].id != next[k].id
  }

  /** If an earlier stream has the id, one of those keeps it. */
  lemma EarlierKeeps(prev: seq<Stream>, next: seq<Stream>, k: nat, y: nat) returns (z: nat)
    requires y < k < |next| && next[y].id == next[k].id && !Unknown(prev, next[k].id)
    ensures z < k && next[z].id == next[k].id && Keeps(prev, next, z)
  {
    if Keeps(prev, next, y) {
      z := y;
    } else {
      var x :| 0 <= x < y && next[x].id == next[y].id;
      z := EarlierKeeps(prev, next, y, x);
    }
  }

  /** The first pass: session streams that keep a known id. */
  method MatchById(prev: seq<Stream>, next: seq<Stream>, ghost distinct: bool)
    returns (matched: seq<bool>, known: seq<Stream>, rest: seq<nat>, ghost m: Match)
    requires distinct ==> DistinctIds(next)
    ensures Matched(prev, next, matched, known, m) && Leftover(rest, prev, next, m.from, distinct) && m.at == m.renamed == []
    ensures Passed(prev, next, rest, m, |next|)
    ensures |matched| == |prev| && forall k: nat :: k in rest <==> k < |next| && !Keeps(prev, next, k)
  {
    matched, known, rest := seq(|prev|, i => false), [], [];
    m := Match(map[], map[], [], [], []);
    for k := 0 to |next|
      invariant Matched(prev, next, matched, known, m) && Leftover(rest, prev, next, m.from, distinct) && m.at == m.renamed == []
      invariant Passed(prev, next, rest, m, k)
    {
      matched, known, rest, m := MatchOne(prev, next, matched, known, rest, m, distinct, k);
    }
    LeftoversDoNotKeep(prev, next, rest, m, distinct);
  }

  /** Session stream k keeps its id if it can, else it is left over. */
  method MatchOne(prev: seq<Stream>, next: seq<Stream>, matched0: seq<bool>, known0: seq<Stream>, rest0: seq<nat>, ghost m0: Match, ghost distinct: bool, k: nat)
    returns (matched: seq<bool>, known: seq<Stream>, rest: seq<nat>, ghost m: Match)
    requires k < |next| && (distinct ==> DistinctIds(next)) && m0.at == m0.renamed == []
    requires Matched(prev, next, matched0, known0, m0) && Leftover(rest0, prev, next, m0.from, distinct) && Passed(prev, next, rest0, m0, k)
    ensures Matched(prev, next, matched, known, m) && Leftover(rest, prev, next, m.from, distinct) && m.at == m.renamed == []
    ensures Passed(prev, next, rest, m, k + 1)
  {
    matched, known, rest, m := matched0, known0, rest0, m0;
    var i := FindId(prev, next[k].id);
    if i >= 0 && !matched[i] {
      SameIdOne(prev, next, rest, matched, known, m, distinct, k, i);
      matched := matched[i := true];
      known := known + [next[k]];
      m := m.(from := m.from[k := i], owner := m.owner[i := k], order := m.order + [k]);
    } else {
      LeftOne(prev, next, rest, matched, known, m, distinct, k, i);
      rest := rest + [k];
    }
  }

  lemma LeftoversDoNotKeep(prev: seq<Stream>, next: seq<Stream>, rest: seq<nat>, m: Match, distinct: bool)
    requires Leftover(rest, prev, next, m.from, distinct) && Passed(prev, next, rest, m, |next|)
    ensures forall k: nat :: k in rest <==> k < |next| && !Keeps(prev, next, k)
  {
    forall k | k in rest
      ensures k < |next| && k !in m.from
    {
      var u :| 0 <= u < |rest| && rest[u] == k;
    }
  }

  /** The first pass before session stream k: earlier ones are matched under their own id, or left over. */
  ghost predicate Passed(prev: seq<Stream>, next: seq<Stream>, rest: seq<nat>, m: Match, k: nat)
    requires k <= |next|
  {
    && (forall x :: x in m.from ==> x < k && First(prev, next[x].id, m.from[x]))
    && (forall x :: 0 <= x < k ==> (x in m.from <==> Keeps(prev, next, x)) && (x in m.from || x in rest))
    && (forall x :: x in rest ==> x < k)
    && (forall x :: x in m.from <==> x in m.order)
  }

  lemma LeftOne(prev: seq<Stream>, next: seq<Stream>, rest: seq<nat>, matched: seq<bool>, known: seq<Stream>, m: Match, distinct: bool, k: nat, i: int)
    requires Matched(prev, next, matched, known, m) && Leftover(rest, prev, next, m.from, distinct) && (distinct ==> DistinctIds(next))
    requires k < |next| && Passed(prev, next, rest, m, k)
    requires if i < 0 then Unknown(prev, next[k].id) else First(prev, next[k].id, i) && matched[i]
    ensures Leftover(rest + [k], prev, next, m.from, distinct) && Passed(prev, next, rest + [k], m, k + 1)
  {
    if i >= 0 {
      assert m.owner[i] in m.from && next[m.owner[i]].id == next[k].id;
    }
    if distinct {
      NotTaken(prev, next, m.from, m.owner, k);
    }
    LeftOneMore(rest, prev, next, m.from, distinct, k);
  }

  lemma SameIdOne(prev: seq<Stream>, next: seq<Stream>, rest: seq<nat>, matched: seq<bool>, known: seq<Stream>, m: Match, distinct: bool, k: nat, i: nat)
    requires Matched(prev, next, matched, known, m) && Leftover(rest, prev, next, m.from, distinct)
    requires k < |next| && Passed(prev, next, rest, m, k) && First(prev, next[k].id, i) && !matched[i]
    ensures var n := m.(from := m.from[k := i], owner := m.owner[i := k], order := m.order + [k]);
      && Matched(prev, next, matched[i := true], known + [next[k]], n) && Leftover(rest, prev, next, n.from, distinct)
      && Passed(prev, next, rest, n, k + 1)
  {
    LeftStays(rest, prev, next, m.from, distinct, k, i);
    Continue(prev, next, m.from, m.owner, matched, k, i);
    ListOneMore(known, m.order, prev, next, m.from, m.from[k := i], k);
    KeepsFree(prev, next, rest, matched, known, m, k, i);
  }

  /** Its id is free, so no earlier stream has it. */
  lemma KeepsFree(prev: seq<Stream>, next: seq<Stream>, rest: seq<nat>, matched: seq<bool>, known: seq<Stream>, m: Match, k: nat, i: nat)
    requires Matched(prev, next, matched, known, m) && k < |next| && Passed(prev, next, rest, m, k)
    requires First(prev, next[k].id, i) && !matched[i]
    ensures Keeps(prev, next, k)
  {
    if !Keeps(prev, next, k) {
      var y :| 0 <= y < k && next[y].id == next[k].id;
      var z := EarlierKeeps(prev, next, k, y);
      SameFirst(prev, next[k].id, i, m.from[z]);
    }
  }

  lemma SameFirst(prev: seq<Stream>, id: string, i: nat, j: nat)
    requires First(prev, id, i) && First(prev, id, j)
    ensures i == j
  {
  }

  /** The rename table: the emitted id of every stream continued by kind, to the emitted id it continues. */
  ghost predicate Table(ids: map<string, string>, prev: seq<Stream>, next: seq<Stream>, from: map<nat, nat>, renamed: seq<nat>,
                        prevQ: string, nextQ: string, distinct: bool) {
    && (forall j :: 0 <= j < |renamed| ==> renamed[j] in from && renamed[j] < |next| && from[renamed[j]] < |prev|)
    && Keys(ids, next, renamed, nextQ)
    && (distinct ==> forall j :: 0 <= j < |renamed| ==>
          && Qualify(next[renamed[j]].id, nextQ) in ids
          && ids[Qualify(next[renamed[j]].id, nextQ)] == Qualify(prev[from[renamed[j]]].id, prevQ))
  }

  lemma KeysDiffer(next: seq<Stream>, a: nat, b: nat, q: string)
    requires DistinctIds(next) && a < |next| && b < |next| && a != b
    ensures Qualify(next[a].id, q) != Qualify(next[b].id, q)
  {
    if Qualify(next[a].id, q) == Qualify(next[b].id, q) {
      QualifyInjective(next[a].id, next[b].id, q);
    }
  }

  /** Every key is the emitted id of a renamed stream. */
  ghost predicate Keys(ids: map<string, string>, next: seq<Stream>, renamed: seq<nat>, nextQ: string) {
    forall key :: key in ids ==> exists j :: 0 <= j < |renamed| && renamed[j] < |next| && key == Qualify(next[renamed[j]].id, nextQ)
  }

  lemma KeysOneMore(ids: map<string, string>, next: seq<Stream>, renamed: seq<nat>, nextQ: string, k: nat, value: string)
    requires Keys(ids, next, renamed, nextQ) && k < |next|
    ensures Keys(ids[Qualify(next[k].id, nextQ) := value], next, renamed + [k], nextQ)
  {
    var key, more := Qualify(next[k].id, nextQ), renamed + [k];
    var table := ids[key := value];
    forall x | x in table
      ensures exists j :: 0 <= j < |more| && more[j] < |next| && x == Qualify(next[more[j]].id, nextQ)
    {
      if x == key {
        assert more[|renamed|] == k;
      } else {
        var j :| 0 <= j < |renamed| && renamed[j] < |next| && x == Qualify(next[renamed[j]].id, nextQ);
        assert more[j] == renamed[j];
      }
    }
  }

  lemma TableOneMore(ids: map<string, string>, prev: seq<Stream>, next: seq<Stream>, from: map<nat, nat>, renamed: seq<nat>,
                     prevQ: string, nextQ: string, distinct: bool, k: nat, i: nat)
    requires Table(ids, prev, next, from, renamed, prevQ, nextQ, distinct) && (distinct ==> DistinctIds(next))
    requires k < |next| && k !in from && i < |prev|
    ensures Table(ids[Qualify(next[k].id, nextQ) := Qualify(prev[i].id, prevQ)], prev, next, from[k := i], renamed + [k], prevQ, nextQ, distinct)
  {
    var key, value := Qualify(next[k].id, nextQ), Qualify(prev[i].id, prevQ);
    var more, table := renamed + [k], ids[key := value];
    KeysOneMore(ids, next, renamed, nextQ, k, value);
    if distinct {
      forall j | 0 <= j < |renamed|
        ensures Qualify(next[renamed[j]].id, nextQ) != key
      {
        KeysDiffer(next, renamed[j], k, nextQ);
      }
    }
  }

  /** The streams nothing known could be continued by. */
  ghost predicate Additions(added: seq<Stream>, at: seq<nat>, prev: seq<Stream>, next: seq<Stream>, from: map<nat, nat>, matched: seq<bool>)
    requires |matched| == |prev|
  {
    && |added| == |at|
    && (forall j :: 0 <= j < |at| ==> at[j] < |next| && at[j] !in from && added[j] == next[at[j]])
    && (forall i, j :: 0 <= i < j < |at| ==> at[i] != at[j])
    && (forall j, i :: 0 <= j < |added| && 0 <= i < |prev| && Alike(prev[i], added[j]) ==> matched[i])
  }

  lemma AdditionsStay(added: seq<Stream>, at: seq<nat>, prev: seq<Stream>, next: seq<Stream>, from: map<nat, nat>, matched: seq<bool>, k: nat, i: nat)
    requires |matched| == |prev| && Additions(added, at, prev, next, from, matched) && i < |prev| && k !in at
    ensures Additions(added, at, prev, next, from[k := i], matched[i := true])
  {
  }

  lemma AdditionOneMore(added: seq<Stream>, at: seq<nat>, prev: seq<Stream>, next: seq<Stream>, from: map<nat, nat>, matched: seq<bool>, k: nat)
    requires |matched| == |prev| && Additions(added, at, prev, next, from, matched) && k < |next| && k !in from && k !in at
    requires forall i :: 0 <= i < |prev| && Alike(prev[i], next[k]) ==> matched[i]
    ensures Additions(added + [next[k]], at + [k], prev, next, from, matched)
  {
  }

  /** Where the second pass stands: everything before position u of the leftovers is settled. */
  ghost predicate Settled(rest: seq<nat>, u: nat, from: map<nat, nat>, order: seq<nat>, at: seq<nat>)
    requires u <= |rest|
  {
    && (forall v :: u <= v < |rest| ==> rest[v] !in from && rest[v] !in order && rest[v] !in at)
    && (forall v :: 0 <= v < u ==> rest[v] in order && (rest[v] in from || rest[v] in at))
  }

  /** The first pass's matches stand; everything since is a rename or an addition, from the leftovers. */
  ghost predicate Grew(first: Match, m: Match, rest: seq<nat>) {
    && (forall k :: k in first.order ==> k in m.order && k in m.from)
    && (forall k :: k in first.from ==> k in m.from && m.from[k] == first.from[k])
    && (forall k :: k in m.from ==> k in first.from || k in m.renamed)
    && (forall k :: k in m.at || k in m.renamed ==> k in rest)
  }

  /** Known stream i was gone when session stream k came up: kept by its id, or taken by an earlier leftover. */
  ghost predicate Taken(m: Match, i: nat, k: nat) {
    i in m.owner && (m.owner[i] !in m.renamed || m.owner[i] < k)
  }

  /** Each leftover continues the first stream of its media type and codec still free at its turn, or is new for want of one. */
  ghost predicate InOrder(prev: seq<Stream>, next: seq<Stream>, m: Match) {
    && (forall k :: k in m.renamed ==> k < |next| && k in m.from && m.from[k] < |prev| && Alike(prev[m.from[k]], next[k]))
    && (forall k, i :: k in m.renamed && 0 <= i < m.from[k] && Alike(prev[i], next[k]) ==> Taken(m, i, k))
    && (forall k :: k in m.at ==> k < |next|)
    && (forall k, i :: k in m.at && 0 <= i < |prev| && Alike(prev[i], next[k]) ==> Taken(m, i, k))
  }

  /** What the second pass has renamed so far comes before leftover u. */
  lemma RenamedBefore(prev: seq<Stream>, next: seq<Stream>, rest: seq<nat>, u: nat, first: Match, m: Match, distinct: bool)
    requires u < |rest| && Leftover(rest, prev, next, first.from, distinct) && Settled(rest, u, m.from, m.order, m.at) && Grew(first, m, rest)
    requires forall k :: k in m.renamed ==> k in m.from
    ensures forall k :: k in m.renamed ==> k < rest[u]
  {
    forall k | k in m.renamed
      ensures k < rest[u]
    {
      var v :| 0 <= v < |rest| && rest[v] == k;
      assert v < u;
    }
  }

  lemma NewInOrder(prev: seq<Stream>, next: seq<Stream>, rest: seq<nat>, u: nat, matched: seq<bool>, known: seq<Stream>, first: Match, m: Match, distinct: bool)
    requires u < |rest| && Leftover(rest, prev, next, first.from, distinct) && Matched(prev, next, matched, known, m)
    requires Settled(rest, u, m.from, m.order, m.at) && Grew(first, m, rest) && InOrder(prev, next, m)
    requires forall i :: 0 <= i < |prev| && Alike(prev[i], next[rest[u]]) ==> matched[i]
    ensures InOrder(prev, next, m.(at := m.at + [rest[u]], order := m.order + [rest[u]]))
  {
    RenamedBefore(prev, next, rest, u, first, m, distinct);
    var n := m.(at := m.at + [rest[u]], order := m.order + [rest[u]]);
    forall k, i | k in n.at && 0 <= i < |prev| && Alike(prev[i], next[k])
      ensures Taken(n, i, k)
    {
      if k in m.at {
        assert Taken(m, i, k);
      }
    }
    forall k, i | k in n.renamed && 0 <= i < n.from[k] && Alike(prev[i], next[k])
      ensures Taken(n, i, k)
    {
      assert Taken(m, i, k);
    }
  }

  lemma TakenStays(prev: seq<Stream>, next: seq<Stream>, matched: seq<bool>, known: seq<Stream>, m: Match, k: nat, i: nat, x: nat, j: nat)
    requires Matched(prev, next, matched, known, m) && k !in m.from && i < |prev| && !matched[i] && Taken(m, j, x)
    ensures Taken(m.(from := m.from[k := i], owner := m.owner[i := k], order := m.order + [k], renamed := m.renamed + [k]), j, x)
  {
    assert m.owner[j] in m.from;
  }

  lemma OldInOrder(prev: seq<Stream>, next: seq<Stream>, rest: seq<nat>, u: nat, matched: seq<bool>, known: seq<Stream>, first: Match, m: Match, distinct: bool, i: nat)
    requires u < |rest| && Leftover(rest, prev, next, first.from, distinct) && Matched(prev, next, matched, known, m)
    requires Settled(rest, u, m.from, m.order, m.at) && Grew(first, m, rest) && InOrder(prev, next, m)
    requires i < |prev| && !matched[i] && Alike(prev[i], next[rest[u]])
    requires forall j :: 0 <= j < i && Alike(prev[j], next[rest[u]]) ==> matched[j]
    ensures var k := rest[u];
      InOrder(prev, next, m.(from := m.from[k := i], owner := m.owner[i := k], order := m.order + [k], renamed := m.renamed + [k]))
  {
    RenamedBefore(prev, next, rest, u, first, m, distinct);
    var k := rest[u];
    var n := m.(from := m.from[k := i], owner := m.owner[i := k], order := m.order + [k], renamed := m.renamed + [k]);
    forall x, j | x in n.renamed && 0 <= j < n.from[x] && Alike(prev[j], next[x])
      ensures Taken(n, j, x)
    {
      if x in m.renamed {
        assert Taken(m, j, x);
      } else {
        assert Taken(m, j, k);
      }
      TakenStays(prev, next, matched, known, m, k, i, x, j);
    }
    forall x, j | x in n.at && 0 <= j < |prev| && Alike(prev[j], next[x])
      ensures Taken(n, j, x)
    {
      assert Taken(m, j, x);
      TakenStays(prev, next, matched, known, m, k, i, x, j);
    }
  }

  /** Leftover u is new. */
  lemma NewOne(prev: seq<Stream>, next: seq<Stream>, rest: seq<nat>, u: nat, matched: seq<bool>, known: seq<Stream>, added: seq<Stream>,
               first: Match, m: Match, distinct: bool)
    requires u < |rest| && Leftover(rest, prev, next, first.from, distinct) && Matched(prev, next, matched, known, m)
    requires Additions(added, m.at, prev, next, m.from, matched) && Settled(rest, u, m.from, m.order, m.at) && Grew(first, m, rest)
    requires forall i :: 0 <= i < |prev| && Alike(prev[i], next[rest[u]]) ==> matched[i]
    ensures var k, n := rest[u], m.(at := m.at + [rest[u]], order := m.order + [rest[u]]);
      && Matched(prev, next, matched, known + [next[k]], n) && Additions(added + [next[k]], n.at, prev, next, n.from, matched)
      && Settled(rest, u + 1, n.from, n.order, n.at) && Grew(first, n, rest)
  {
    var k := rest[u];
    AdditionOneMore(added, m.at, prev, next, m.from, matched, k);
    ListOneMore(known, m.order, prev, next, m.from, m.from, k);
  }

  /** Leftover u continues the free stream i. */
  lemma OldOne(prev: seq<Stream>, next: seq<Stream>, rest: seq<nat>, u: nat, matched: seq<bool>, known: seq<Stream>, added: seq<Stream>,
               first: Match, m: Match, distinct: bool, i: nat)
    requires u < |rest| && Leftover(rest, prev, next, first.from, distinct) && Matched(prev, next, matched, known, m)
    requires Additions(added, m.at, prev, next, m.from, matched) && Settled(rest, u, m.from, m.order, m.at) && Grew(first, m, rest)
    requires i < |prev| && !matched[i]
    ensures var k := rest[u];
      var n := m.(from := m.from[k := i], owner := m.owner[i := k], order := m.order + [k], renamed := m.renamed + [k]);
      && Matched(prev, next, matched[i := true], known + [next[k].(id := prev[i].id)], n)
      && Additions(added, n.at, prev, next, n.from, matched[i := true])
      && Settled(rest, u + 1, n.from, n.order, n.at) && Grew(first, n, rest)
  {
    var k := rest[u];
    Continue(prev, next, m.from, m.owner, matched, k, i);
    ListOneMore(known, m.order, prev, next, m.from, m.from[k := i], k);
    AdditionsStay(added, m.at, prev, next, m.from, matched, k, i);
  }

  /** The second pass: leftovers continue the first free stream of their kind, or are new. */
  method MatchByKind(prev: seq<Stream>, next: seq<Stream>, prevQ: string, nextQ: string, rest: seq<nat>, matched0: seq<bool>, known0: seq<Stream>,
                     ghost first: Match, ghost distinct: bool)
    returns (matched: seq<bool>, known: seq<Stream>, ids: map<string, string>, added: seq<Stream>, ghost m: Match)
    requires (distinct ==> DistinctIds(next)) && Matched(prev, next, matched0, known0, first) && first.at == first.renamed == []
    requires Leftover(rest, prev, next, first.from, distinct) && forall k :: k in first.from <==> k in first.order
    ensures Matched(prev, next, matched, known, m) && Grew(first, m, rest)
    ensures Table(ids, prev, next, m.from, m.renamed, prevQ, nextQ, distinct) && Additions(added, m.at, prev, next, m.from, matched)
    ensures Settled(rest, |rest|, m.from, m.order, m.at) && InOrder(prev, next, m)
    ensures |known| == |known0| + |rest| && |matched| == |matched0| && |added| <= |rest|
  {
    matched, known, ids, added, m := matched0, known0, map[], [], first;
    for u := 0 to |rest|
      invariant Matched(prev, next, matched, known, m) && Grew(first, m, rest)
      invariant Table(ids, prev, next, m.from, m.renamed, prevQ, nextQ, distinct) && Additions(added, m.at, prev, next, m.from, matched)
      invariant Settled(rest, u, m.from, m.order, m.at) && InOrder(prev, next, m)
      invariant |known| == |known0| + u && |matched| == |matched0| && |added| <= u
    {
      var k := rest[u];
      var i := FindFree(prev, next[k], matched);
      if i < 0 {
        NewOne(prev, next, rest, u, matched, known, added, first, m, distinct);
        NewInOrder(prev, next, rest, u, matched, known, first, m, distinct);
        added, known := added + [next[k]], known + [next[k]];
        m := m.(at := m.at + [k], order := m.order + [k]);
      } else {
        OldOne(prev, next, rest, u, matched, known, added, first, m, distinct, i);
        OldInOrder(prev, next, rest, u, matched, known, first, m, distinct, i);
        TableOneMore(ids, prev, next, m.from, m.renamed, prevQ, nextQ, distinct, k, i);
        matched := matched[i := true];
        ids := ids[Qualify(next[k].id, nextQ) := Qualify(prev[i].id, prevQ)];
        known := known + [next[k].(id := prev[i].id)];
        m := m.(from := m.from[k := i], owner := m.owner[i := k], order := m.order + [k], renamed := m.renamed + [k]);
      }
    }
  }

  /** The known streams nobody continued, in order. */
  function Free(prev: seq<Stream>, matched: seq<bool>, n: nat): seq<Stream>
    requires |matched| == |prev| && n <= |prev|
  {
    if n == 0 then [] else Free(prev, matched, n - 1) + if matched[n-1] then [] else [prev[n-1]]
  }

  lemma {:induction false} FreeIs(prev: seq<Stream>, matched: seq<bool>, n: nat, s: Stream)
    requires |matched| == |prev| && n <= |prev|
    ensures s in Free(prev, matched, n) <==> exists i :: 0 <= i < n && prev[i] == s && !matched[i]
  {
    if n > 0 {
      FreeIs(prev, matched, n - 1, s);
    }
  }

  method Removed(prev: seq<Stream>, matched: seq<bool>) returns (removed: seq<Stream>)
    requires |matched| == |prev|
    ensures removed == Free(prev, matched, |prev|)
  {
    removed := [];
    for i := 0 to |prev|
      invariant removed == Free(prev, matched, i)
    {
      if !matched[i] {
        removed := removed + [prev[i]];
      }
    }
  }

  /** No stream is both gone and new: what is new has no free stream of its kind. */
  lemma NoneLeftAlike(added: seq<Stream>, at: seq<nat>, prev: seq<Stream>, next: seq<Stream>, from: map<nat, nat>, matched: seq<bool>, a: Stream, r: Stream)
    requires |matched| == |prev| && Additions(added, at, prev, next, from, matched)
    requires a in added && r in Free(prev, matched, |prev|)
    ensures !Alike(r, a)
  {
    FreeIs(prev, matched, |prev|, r);
    var j :| 0 <= j < |added| && added[j] == a;
    var i :| 0 <= i < |prev| && prev[i] == r && !matched[i];
    assert !Alike(prev[i], added[j]);
  }

  /** The known ids stay distinct. */
  lemma KnownDistinct(prev: seq<Stream>, next: seq<Stream>, from: map<nat, nat>, owner: map<nat, nat>, known: seq<Stream>, order: seq<nat>)
    requires DistinctIds(prev) && DistinctIds(next) && Matching(prev, next, from, owner) && Lists(known, order, prev, next, from)
    requires forall k :: k in order && k !in from ==> k < |next| && Unknown(prev, next[k].id)
    ensures DistinctIds(known)
  {
    forall a, b | 0 <= a < b < |known|
      ensures known[a].id != known[b].id
    {
      KnownApart(prev, next, from, owner, order[a], order[b]);
      assert order[a] in order && order[b] in order;
    }
  }

  lemma KnownApart(prev: seq<Stream>, next: seq<Stream>, from: map<nat, nat>, owner: map<nat, nat>, k: nat, m: nat)
    requires DistinctIds(prev) && DistinctIds(next) && Matching(prev, next, from, owner)
    requires k < |next| && m < |next| && k != m
    requires (k !in from ==> Unknown(prev, next[k].id)) && (m !in from ==> Unknown(prev, next[m].id))
    ensures Known(prev, next, from, k).id != Known(prev, next, from, m).id
  {
    if k in from && m in from {
      assert owner[from[k]] == k && owner[from[m]] == m;
    }
  }

  /** What `observe` makes of an emitted id. */
  function Emitted(ids: map<string, string>, id: string): string {
    if id in ids then ids[id] else id
  }

  /** The stream continues a known one of another id. */
  ghost predicate Renamed(prev: seq<Stream>, next: seq<Stream>, from: map<nat, nat>, k: nat)
    requires k < |next|
  {
    k in from && from[k] < |prev| && prev[from[k]].id != next[k].id
  }

  lemma QualifyAgrees(id: string, p: string, q: string)
    ensures Qualify(id, p) == Qualify(id, q) <==> id == "" || p == q
  {
    if id != "" && p != q {
      assert p != "" ==> (id + p)[|id|..] == p;
      assert q != "" ==> (id + q)[|id|..] == q;
    }
  }

  /**
   * The table answers in the old session's form. So an emitted id leaves as the known id of its stream in the new
   * form exactly when both sessions qualify ids alike, or the stream keeps its id, or that id is empty; and as
   * downstream has seen the stream it continues exactly when they do, or it is renamed, or that id is empty.
   */
  lemma EmittedAsKnown(ids: map<string, string>, prev: seq<Stream>, next: seq<Stream>, from: map<nat, nat>, renamed: seq<nat>,
                       prevQ: string, nextQ: string, k: nat)
    requires DistinctIds(next) && Table(ids, prev, next, from, renamed, prevQ, nextQ, true)
    requires k < |next| && (k in from ==> from[k] < |prev|) && (k in renamed <==> Renamed(prev, next, from, k))
    ensures Emitted(ids, Qualify(next[k].id, nextQ)) == Qualify(Known(prev, next, from, k).id, nextQ) <==>
      prevQ == nextQ || !Renamed(prev, next, from, k) || Known(prev, next, from, k).id == ""
    ensures k in from ==> (Emitted(ids, Qualify(next[k].id, nextQ)) == Qualify(prev[from[k]].id, prevQ) <==>
      prevQ == nextQ || Renamed(prev, next, from, k) || prev[from[k]].id == "")
  {
    if k in from {
      QualifyAgrees(prev[from[k]].id, prevQ, nextQ);
    }
    if k in renamed {
      var j :| 0 <= j < |renamed| && renamed[j] == k;
    } else {
      NotRenamed(ids, prev, next, from, renamed, prevQ, nextQ, k);
    }
  }

  lemma NotRenamed(ids: map<string, string>, prev: seq<Stream>, next: seq<Stream>, from: map<nat, nat>, renamed: seq<nat>,
                   prevQ: string, nextQ: string, k: nat)
    requires DistinctIds(next) && Table(ids, prev, next, from, renamed, prevQ, nextQ, true) && k < |next| && k !in renamed
    ensures Qualify(next[k].id, nextQ) !in ids
  {
    forall j | 0 <= j < |renamed|
      ensures Qualify(next[renamed[j]].id, nextQ) != Qualify(next[k].id, nextQ)
    {
      KeysDiffer(next, renamed[j], k, nextQ);
    }
  }

  /** The first n known streams without those continued. */
  ghost function Gone(prev: seq<Stream>, owner: map<nat, nat>, n: nat): seq<Stream>
    requires n <= |prev|
  {
    if n == 0 then [] else Gone(prev, owner, n - 1) + if n - 1 in owner then [] else [prev[n-1]]
  }

  /** The streams that keep their id continue the first known stream with it; every other match was made by kind. */
  ghost predicate ById(prev: seq<Stream>, next: seq<Stream>, m: Match) {
    && (forall k :: 0 <= k < |next| && Keeps(prev, next, k) ==> k in m.from && First(prev, next[k].id, m.from[k]) && k !in m.renamed)
    && (forall k :: 0 <= k < |next| && k in m.from && !Keeps(prev, next, k) ==> k in m.renamed)
  }

  lemma StillById(prev: seq<Stream>, next: seq<Stream>, rest: seq<nat>, first: Match, m: Match, distinct: bool)
    requires Leftover(rest, prev, next, first.from, distinct) && Grew(first, m, rest)
    requires forall k :: 0 <= k < |next| ==> (k in first.from <==> Keeps(prev, next, k))
    requires forall k :: k in first.from ==> k < |next| && First(prev, next[k].id, first.from[k])
    ensures ById(prev, next, m)
  {
    forall k | k in m.renamed
      ensures k !in first.from
    {
      var v :| 0 <= v < |rest| && rest[v] == k;
    }
  }

  /** With distinct ids, every stream with a known id continues the stream that has it. */
  ghost predicate KeepsIds(prev: seq<Stream>, next: seq<Stream>, from: map<nat, nat>) {
    forall k, i :: 0 <= k < |next| && 0 <= i < |prev| && next[k].id == prev[i].id ==> k in from && from[k] == i
  }

  lemma DistinctKeepIds(prev: seq<Stream>, next: seq<Stream>, m: Match)
    requires AllDistinct(prev, next) && ById(prev, next, m)
    ensures KeepsIds(prev, next, m.from)
  {
    forall k, i | 0 <= k < |next| && 0 <= i < |prev| && next[k].id == prev[i].id
      ensures k in m.from && m.from[k] == i
    {
      assert Keeps(prev, next, k);
      assert First(prev, next[k].id, i);
      SameFirst(prev, next[k].id, i, m.from[k]);
    }
  }

  /** How a reopened session was matched: the whole of what `reconcile` promises. */
  ghost predicate Reconciled(prev: seq<Stream>, next: seq<Stream>, known: seq<Stream>, added: seq<Stream>, removed: seq<Stream>, m: Match) {
    && Matching(prev, next, m.from, m.owner) && Lists(known, m.order, prev, next, m.from)
    && (forall k :: 0 <= k < |next| ==> k in m.order && (k !in m.from ==> k in m.at))
    && |added| == |m.at| && (forall j :: 0 <= j < |m.at| ==> m.at[j] < |next| && m.at[j] !in m.from && added[j] == next[m.at[j]])
    && (forall i, j :: 0 <= i < j < |m.at| ==> m.at[i] != m.at[j])
    && removed == Gone(prev, m.owner, |prev|)
    && ById(prev, next, m) && InOrder(prev, next, m)
    && (forall a, r :: a in added && r in removed ==> !Alike(r, a))
  }

  lemma {:induction false} GoneIs(prev: seq<Stream>, matched: seq<bool>, owner: map<nat, nat>, n: nat)
    requires Marks(matched, prev, owner) && n <= |prev|
    ensures Free(prev, matched, n) == Gone(prev, owner, n)
  {
    if n > 0 {
      GoneIs(prev, matched, owner, n - 1);
    }
  }

  lemma AllPlaced(next: seq<Stream>, rest: seq<nat>, first: Match, m: Match)
    requires forall k :: 0 <= k < |next| ==> k in first.from || k in rest
    requires (forall k :: k in first.from <==> k in first.order) && Grew(first, m, rest)
    requires Settled(rest, |rest|, m.from, m.order, m.at)
    ensures forall k :: 0 <= k < |next| ==> k in m.order && (k !in m.from ==> k in m.at)
  {
    forall k | 0 <= k < |next|
      ensures k in m.order && (k !in m.from ==> k in m.at)
    {
      if k !in first.from {
        var v :| 0 <= v < |rest| && rest[v] == k;
        assert rest[v] in m.order;
      }
    }
  }

  class Source {
    var streams: seq<Stream>
    var qualifier: string

    constructor (streams: seq<Stream>, qualifier: string)
      ensures this.streams == streams && this.qualifier == qualifier
    {
      this.streams, this.qualifier := streams, qualifier;
    }

    /**
     * `reconcile`: the session's streams are matched by id, then by kind in order. With distinct ids the known
     * ids stay distinct, and under one qualifier every emitted id leaves as downstream knows its stream, one to one.
     */
    method Reconcile(next: seq<Stream>, nextQ: string)
      returns (ids: map<string, string>, added: seq<Stream>, removed: seq<Stream>, ghost m: Match)
      modifies this
      ensures qualifier == nextQ && Reconciled(old(streams), next, streams, added, removed, m)
      ensures AllDistinct(old(streams), next) ==> DistinctIds(streams) && KeepsIds(old(streams), next, m.from)
      ensures AllDistinct(old(streams), next) ==> EmitsAsKnown(ids, old(streams), next, m.from, old(qualifier), nextQ)
      ensures AllDistinct(old(streams), next) && old(qualifier) == nextQ ==> OneToOne(ids, next, nextQ)
    {
      var known;
      known, ids, added, removed, m := Rematch(streams, next, qualifier, nextQ);
      streams, qualifier := known, nextQ;
    }
  }

  /** Its two passes, on values. */
  method Rematch(prev: seq<Stream>, next: seq<Stream>, prevQ: string, nextQ: string)
    returns (known: seq<Stream>, ids: map<string, string>, added: seq<Stream>, removed: seq<Stream>, ghost m: Match)
    ensures Reconciled(prev, next, known, added, removed, m)
    ensures AllDistinct(prev, next) ==> DistinctIds(known) && KeepsIds(prev, next, m.from) && EmitsAsKnown(ids, prev, next, m.from, prevQ, nextQ)
    ensures AllDistinct(prev, next) && prevQ == nextQ ==> OneToOne(ids, next, nextQ)
  {
    ghost var distinct := AllDistinct(prev, next);
    var matched, rest;
    ghost var first;
    matched, known, rest, first := MatchById(prev, next, distinct);
    matched, known, ids, added, m := MatchByKind(prev, next, prevQ, nextQ, rest, matched, known, first, distinct);
    removed := Removed(prev, matched);
    AllPlaced(next, rest, first, m);
    StillById(prev, next, rest, first, m, distinct);
    AllReconciled(prev, next, known, added, matched, m);
    if distinct {
      StaysDistinct(prev, next, rest, known, ids, first, m, prevQ, nextQ);
      DistinctKeepIds(prev, next, m);
    }
  }

  /** With distinct ids: the known ones stay so, and the rename table answers as EmittedAsKnown says. */
  lemma StaysDistinct(prev: seq<Stream>, next: seq<Stream>, rest: seq<nat>, known: seq<Stream>, ids: map<string, string>,
                      first: Match, m: Match, prevQ: string, nextQ: string)
    requires AllDistinct(prev, next) && Leftover(rest, prev, next, first.from, true) && Grew(first, m, rest)
    requires Matching(prev, next, first.from, first.owner) && forall k :: k in first.from ==> First(prev, next[k].id, first.from[k])
    requires Matching(prev, next, m.from, m.owner) && Lists(known, m.order, prev, next, m.from)
    requires Table(ids, prev, next, m.from, m.renamed, prevQ, nextQ, true)
    requires forall k :: 0 <= k < |next| ==> k in m.order && (k !in m.from ==> k in m.at)
    ensures DistinctIds(known) && EmitsAsKnown(ids, prev, next, m.from, prevQ, nextQ)
    ensures prevQ == nextQ ==> OneToOne(ids, next, nextQ)
  {
    NewAreUnknown(prev, next, rest, first.from, m.from, m.at);
    KnownDistinct(prev, next, m.from, m.owner, known, m.order);
    RenamedAre(prev, next, rest, first.from, m.from, m.renamed);
    AllEmitted(ids, prev, next, m.from, m.renamed, prevQ, nextQ);
    if prevQ == nextQ {
      forall k, l | 0 <= k < |next| && 0 <= l < |next| && k != l
        ensures Emitted(ids, Qualify(next[k].id, nextQ)) != Emitted(ids, Qualify(next[l].id, nextQ))
      {
        EmittedOneToOne(ids, prev, next, m.from, m.owner, nextQ, k, l);
      }
    }
  }

  /** Different streams of the session leave under different ids. */
  ghost predicate OneToOne(ids: map<string, string>, next: seq<Stream>, q: string) {
    forall k, l :: 0 <= k < |next| && 0 <= l < |next| && k != l ==> Emitted(ids, Qualify(next[k].id, q)) != Emitted(ids, Qualify(next[l].id, q))
  }

  lemma AllReconciled(prev: seq<Stream>, next: seq<Stream>, known: seq<Stream>, added: seq<Stream>, matched: seq<bool>, m: Match)
    requires Matched(prev, next, matched, known, m) && Additions(added, m.at, prev, next, m.from, matched)
    requires forall k :: 0 <= k < |next| ==> k in m.order && (k !in m.from ==> k in m.at)
    requires ById(prev, next, m) && InOrder(prev, next, m)
    ensures Reconciled(prev, next, known, added, Free(prev, matched, |prev|), m)
  {
    GoneIs(prev, matched, m.owner, |prev|);
    forall a, r | a in added && r in Free(prev, matched, |prev|)
      ensures !Alike(r, a)
    {
      NoneLeftAlike(added, m.at, prev, next, m.from, matched, a, r);
    }
  }

  /** Every stream of the session, as EmittedAsKnown says. */
  ghost predicate EmitsAsKnown(ids: map<string, string>, prev: seq<Stream>, next: seq<Stream>, from: map<nat, nat>, prevQ: string, nextQ: string) {
    forall k :: 0 <= k < |next| ==>
      && (k in from ==> from[k] < |prev|)
      && (Emitted(ids, Qualify(next[k].id, nextQ)) == Qualify(Known(prev, next, from, k).id, nextQ) <==>
           prevQ == nextQ || !Renamed(prev, next, from, k) || Known(prev, next, from, k).id == "")
      && (k in from ==> (Emitted(ids, Qualify(next[k].id, nextQ)) == Qualify(prev[from[k]].id, prevQ) <==>
           prevQ == nextQ || Renamed(prev, next, from, k) || prev[from[k]].id == ""))
  }

  lemma AllEmitted(ids: map<string, string>, prev: seq<Stream>, next: seq<Stream>, from: map<nat, nat>, renamed: seq<nat>, prevQ: string, nextQ: string)
    requires DistinctIds(next) && Table(ids, prev, next, from, renamed, prevQ, nextQ, true)
    requires forall k :: k in from ==> from[k] < |prev|
    requires forall k :: 0 <= k < |next| ==> (k in renamed <==> Renamed(prev, next, from, k))
    ensures EmitsAsKnown(ids, prev, next, from, prevQ, nextQ)
  {
    forall k | 0 <= k < |next|
      ensures Emitted(ids, Qualify(next[k].id, nextQ)) == Qualify(Known(prev, next, from, k).id, nextQ) <==>
        prevQ == nextQ || !Renamed(prev, next, from, k) || Known(prev, next, from, k).id == ""
      ensures k in from ==> (Emitted(ids, Qualify(next[k].id, nextQ)) == Qualify(prev[from[k]].id, prevQ) <==>
        prevQ == nextQ || Renamed(prev, next, from, k) || prev[from[k]].id == "")
    {
      EmittedAsKnown(ids, prev, next, from, renamed, prevQ, nextQ, k);
    }
  }

  /** Any number of reconnects: as long as each session's ids are distinct, so are the known ones. */
  method Reconnects(source: Source, sessions: seq<seq<Stream>>)
    requires DistinctIds(source.streams) && forall n :: 0 <= n < |sessions| ==> DistinctIds(sessions[n])
    modifies source
    ensures DistinctIds(source.streams) && source.qualifier == old(source.qualifier)
    ensures sessions != [] ==> |source.streams| == |sessions[|sessions|-1]|
  {
    for n := 0 to |sessions|
      invariant DistinctIds(source.streams) && source.qualifier == old(source.qualifier)
      invariant n > 0 ==> |source.streams| == |sessions[n-1]|
    {
      var _, _, _, m := source.Reconcile(sessions[n], source.qualifier);
      SameSize(m.order, |sessions[n]|);
    }
  }

  /** A list of each number below n, once, has n entries. */
  lemma SameSize(order: seq<nat>, n: nat)
    requires forall i, j :: 0 <= i < j < |order| ==> order[i] != order[j]
    requires (forall j :: 0 <= j < |order| ==> order[j] < n) && forall k :: 0 <= k < n ==> k in order
    ensures |order| == n
  {
    var listed := set j | 0 <= j < |order| :: order[j];
    CountListed(order);
    Seqs.BelowIs(n);
    assert listed == Seqs.Below(n) by {
      forall k | k in Seqs.Below(n)
        ensures k in listed
      {
        assert k in order;
      }
    }
  }

  lemma {:induction false} CountListed(order: seq<nat>)
    requires forall i, j :: 0 <= i < j < |order| ==> order[i] != order[j]
    ensures |set j | 0 <= j < |order| :: order[j]| == |order|
  {
    if order != [] {
      var n := |order| - 1;
      CountListed(order[..n]);
      var fewer := set j | 0 <= j < |order[..n]| :: order[..n][j];
      assert (set j | 0 <= j < |order| :: order[j]) == fewer + {order[n]} by {
        forall j | 0 <= j < n
          ensures order[j] in fewer
        {
          assert order[j] == order[..n][j];
        }
      }
      assert order[n] !in fewer;
    }
  }

  lemma NewAreUnknown(prev: seq<Stream>, next: seq<Stream>, rest: seq<nat>, from0: map<nat, nat>, from: map<nat, nat>, at: seq<nat>)
    requires Leftover(rest, prev, next, from0, true) && (forall k :: k in at ==> k in rest)
    requires forall k :: 0 <= k < |next| && k !in from ==> k in at
    ensures forall k :: 0 <= k < |next| && k !in from ==> Unknown(prev, next[k].id)
  {
    forall k | 0 <= k < |next| && k !in from
      ensures Unknown(prev, next[k].id)
    {
      assert k in rest;
      var u :| 0 <= u < |rest| && rest[u] == k;
      assert Unknown(prev, next[rest[u]].id);
    }
  }

  /** Exactly the streams matched by kind have another id than the one they continue. */
  lemma RenamedAre(prev: seq<Stream>, next: seq<Stream>, rest: seq<nat>, from0: map<nat, nat>, from: map<nat, nat>, renamed: seq<nat>)
    requires Leftover(rest, prev, next, from0, true) && (forall k :: k in renamed ==> k in rest && k in from && from[k] < |prev|)
    requires forall k :: k in from0 ==> k < |next| && k in from && from[k] == from0[k] < |prev| && prev[from[k]].id == next[k].id
    requires forall k :: k in from ==> k in from0 || k in renamed
    ensures forall k :: 0 <= k < |next| ==> (k in renamed <==> Renamed(prev, next, from, k))
  {
    forall k | 0 <= k < |next| && k in renamed
      ensures Renamed(prev, next, from, k)
    {
      var u :| 0 <= u < |rest| && rest[u] == k;
      assert Unknown(prev, next[rest[u]].id);
    }
  }

  /** The emitted ids of a session map one to one onto the known ids. */
  lemma EmittedOneToOne(ids: map<string, string>, prev: seq<Stream>, next: seq<Stream>, from: map<nat, nat>, owner: map<nat, nat>, q: string, k: nat, m: nat)
    requires DistinctIds(prev) && DistinctIds(next) && Matching(prev, next, from, owner)
    requires k < |next| && m < |next| && k != m
    requires (k !in from ==> Unknown(prev, next[k].id)) && (m !in from ==> Unknown(prev, next[m].id))
    requires Emitted(ids, Qualify(next[k].id, q)) == Qualify(Known(prev, next, from, k).id, q)
    requires Emitted(ids, Qualify(next[m].id, q)) == Qualify(Known(prev, next, from, m).id, q)
    ensures Emitted(ids, Qualify(next[k].id, q)) != Emitted(ids, Qualify(next[m].id, q))
  {
    KnownApart(prev, next, from, owner, k, m);
    if Qualify(Known(prev, next, from, k).id, q) == Qualify(Known(prev, next, from, m).id, q) {
      QualifyInjective(Known(prev, next, from, k).id, Known(prev, next, from, m).id, q);
    }
  }

  // ---------------------------------------------------------------------
  // delay
  // ---------------------------------------------------------------------

  const SECOND := 1_000_000_000
  const MAX_DELAY := 30 * SECOND

  function Doubled(base: nat, times: nat): nat {
    if times == 0 then base else 2 * Doubled(base, times - 1)
  }

  function Base(backoff: int): (b: nat)
    ensures b > 0
  {
    if backoff <= 0 then SECOND else backoff
  }

  /** Backoff doubled per earlier failure, capped at 30 seconds or at a longer backoff itself. */
  function Capped(backoff: int, n: nat): nat {
    var cap := if MAX_DELAY < Base(backoff) then Base(backoff) else MAX_DELAY;
    var d := Doubled(Base(backoff), if n == 0 then 0 else n - 1);
    if d < cap then d else cap
  }

  lemma {:induction false} DoubledGrows(base: nat, a: nat, b: nat)
    requires a <= b
    ensures Doubled(base, a) <= Doubled(base, b)
  {
    if a < b {
      DoubledGrows(base, a, b - 1);
    }
  }

  /** The wait doubles with each failure until the cap stops it. */
  lemma CappedDoubles(backoff: int, n: nat)
    ensures Capped(backoff, 0) == Capped(backoff, 1) == if backoff <= 0 then SECOND else backoff
    ensures n >= 1 && backoff <= MAX_DELAY ==>
      Capped(backoff, n + 1) == if 2 * Capped(backoff, n) < MAX_DELAY then 2 * Capped(backoff, n) else MAX_DELAY
    ensures backoff > MAX_DELAY ==> Capped(backoff, n) == backoff
  {
    DoubledGrows(Base(backoff), 0, if n == 0 then 0 else n - 1);
  }

  /** `delay`: the capped backoff, jittered into its upper half. */
  method Delay(backoff: int, n: nat, jitter: nat) returns (wait: nat)
    requires jitter <= Capped(backoff, n) / 2
    ensures Capped(backoff, n) / 2 <= wait <= Capped(backoff, n) && wait == Capped(backoff, n) / 2 + jitter
  {
    var d: nat := if backoff <= 0 then SECOND else backoff;
    var i := 1;
    while i < n && d < MAX_DELAY
      invariant 1 <= i && (i <= n || i == 1) && d == Doubled(Base(backoff), i - 1)
      invariant i > 1 ==> Base(backoff) < MAX_DELAY
    {
      DoubledGrows(Base(backoff), 0, i - 1);
      d := d * 2;
      i := i + 1;
    }
    var cap := if MAX_DELAY < backoff then backoff else MAX_DELAY;
    if i < n {
      DoubledGrows(Base(backoff), i - 1, n - 1);
    }
    d := if d < cap then d else cap;
    wait := d / 2 + jitter;
  }
}
