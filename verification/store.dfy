/**
 * scootersHandlers: the in-memory store of main.go, a map from scooter ID to
 * record, with the list, get-by-id and merge-upsert operations and the
 * dispatch on the request method.
 */
module Store {
  import opened Wrappers
  import opened Records
  import Paths
  import Seeding

  /** Go's map index expression: the stored record, or the zero record for a missing key. */
  function Lookup(m: map<string, Scooter>, id: string): (r: Scooter)
    ensures id in m ==> r == m[id]
    ensures id !in m ==> r == Zero
  {
    if id in m then m[id] else Zero
  }

  /**
   * The store after one merge-upsert: only the incoming ID's entry may
   * change, nothing is removed, an unknown ID gets exactly the incoming
   * record and a known one gets the merge of the stored and incoming records.
   */
  function Upsert(m: map<string, Scooter>, incoming: Scooter): (m': map<string, Scooter>)
    ensures m'.Keys == m.Keys + {incoming.id}
    ensures forall k | k in m && k != incoming.id :: m'[k] == m[k]
    ensures incoming.id !in m ==> m'[incoming.id] == incoming
    ensures incoming.id in m ==> m'[incoming.id] == Merge(m[incoming.id], incoming)
  {
    MergeIntoZero(incoming);
    m[incoming.id := Merge(Lookup(m, incoming.id), incoming)]
  }

  /** A merge-upsert keeps every record stored under its own ID. */
  lemma UpsertKeepsWellKeyed(m: map<string, Scooter>, incoming: Scooter)
    requires WellKeyed(m)
    ensures WellKeyed(Upsert(m, incoming))
  {
  }

  /** Posting the same record twice leaves the store as posting it once. */
  lemma UpsertIdempotent(m: map<string, Scooter>, incoming: Scooter)
    ensures Upsert(Upsert(m, incoming), incoming) == Upsert(m, incoming)
  {
  }

  /**
   * Two merge-upserts on the same ID, each done as one step, lose nothing:
   * together they act as a single post of the second record merged over the
   * first.
   */
  lemma SerialPostsCompose(m: map<string, Scooter>, first: Scooter, second: Scooter)
    requires first.id == second.id
    ensures Upsert(Upsert(m, first), second) == Upsert(m, Merge(first, second))
  {
  }

  /**
   * post as written: the merged record is computed from the store as read
   * before the lock is taken.
   */
  function ReadPhase(m: map<string, Scooter>, incoming: Scooter): (merged: Scooter)
    ensures merged.id == incoming.id
    ensures merged == Upsert(m, incoming)[incoming.id]
  {
    Merge(Lookup(m, incoming.id), incoming)
  }

  /**
   * post as written: the write-back done under the lock, which replaces the
   * entry under the merged record's ID and nothing else.
   */
  function WritePhase(m: map<string, Scooter>, merged: Scooter): (m': map<string, Scooter>)
    ensures m'.Keys == m.Keys + {merged.id}
    ensures m'[merged.id] == merged
    ensures forall k | k in m && k != merged.id :: m'[k] == m[k]
  {
    m[merged.id := merged]
  }

  /** With no other write between them, the two phases of a post are one merge-upsert. */
  lemma UnracedPostIsUpsert(m: map<string, Scooter>, incoming: Scooter)
    ensures WritePhase(m, ReadPhase(m, incoming)) == Upsert(m, incoming)
  {
  }

  /**
   * Two posts on one ID whose unlocked reads both happen before either
   * write: the battery level sent by the first is lost, and the result
   * matches neither order of running the two posts one after the other.
   */
  lemma InterleavedPostsLoseUpdate()
    ensures var m := map["s1" := Scooter("s1", None, 10, 80, true)];
      var first := Scooter("s1", None, 0, 75, true);
      var second := Scooter("s1", None, 20, 0, true);
      var racy := WritePhase(WritePhase(m, ReadPhase(m, first)), ReadPhase(m, second));
      && racy["s1"].akku == 80
      && Upsert(Upsert(m, first), second)["s1"].akku == 75
      && racy != Upsert(Upsert(m, first), second)
      && racy != Upsert(Upsert(m, second), first)
  {
  }

  /** The store grows by one exactly when the ID is new. */
  lemma UpsertSize(m: map<string, Scooter>, incoming: Scooter)
    ensures |Upsert(m, incoming)| == if incoming.id in m then |m| else |m| + 1
  {
  }

  /** The store after a series of merge-upserts, applied in order. */
  function UpsertAll(m: map<string, Scooter>, xs: seq<Scooter>): map<string, Scooter>
    decreases |xs|
  {
    if xs == [] then m else UpsertAll(Upsert(m, xs[0]), xs[1..])
  }

  /**
   * After any series of merge-upserts the keys are the keys it started with
   * plus every ID posted, so a listing holds one record per distinct ID.
   */
  lemma {:induction false} UpsertAllKeys(m: map<string, Scooter>, xs: seq<Scooter>)
    ensures UpsertAll(m, xs).Keys == m.Keys + Seeding.Ids(xs)
    decreases |xs|
  {
    if xs != [] {
      UpsertAllKeys(Upsert(m, xs[0]), xs[1..]);
      Seeding.IdsFront(xs);
    }
  }

  /**
   * A listing of m: as many entries as keys, each entry the record stored
   * under its own ID, no ID twice, and every stored record present.
   */
  ghost predicate Snapshot(m: map<string, Scooter>, list: seq<Scooter>)
  {
    && |list| == |m|
    && (forall i | 0 <= i < |list| :: list[i].id in m && m[list[i].id] == list[i])
    && (forall i, j | 0 <= i < j < |list| :: list[i].id != list[j].id)
    && (forall k | k in m :: m[k] in list)
  }

  /** The records stored under the given keys, in that order. */
  function Values(m: map<string, Scooter>, keys: seq<string>): (list: seq<Scooter>)
    requires forall j | 0 <= j < |keys| :: keys[j] in m
    ensures |list| == |keys|
    ensures forall j | 0 <= j < |keys| :: list[j] == m[keys[j]]
    decreases |keys|
  {
    if keys == [] then [] else Values(m, keys[..|keys| - 1]) + [m[keys[|keys| - 1]]]
  }

  /**
   * Progress of a traversal of m: the keys visited so far, each once, and the
   * keys still to visit, together exactly the keys of m.
   */
  ghost predicate Visited(m: map<string, Scooter>, remaining: set<string>, keys: seq<string>)
  {
    && remaining <= m.Keys
    && (forall j | 0 <= j < |keys| :: keys[j] in m && keys[j] !in remaining)
    && (forall k | k in m && k !in remaining :: k in keys)
    && (forall p, q | 0 <= p < q < |keys| :: keys[p] != keys[q])
  }

  /** Visiting one more key keeps the traversal consistent. */
  lemma VisitStep(m: map<string, Scooter>, remaining: set<string>, keys: seq<string>, id: string)
    requires Visited(m, remaining, keys) && id in remaining
    ensures Visited(m, remaining - {id}, keys + [id])
  {
  }

  /** A listing given by a sequence holding every key exactly once. */
  lemma SnapshotFromKeys(m: map<string, Scooter>, keys: seq<string>, list: seq<Scooter>)
    requires WellKeyed(m)
    requires |keys| == |list| == |m|
    requires forall j | 0 <= j < |keys| :: keys[j] in m && list[j] == m[keys[j]]
    requires forall p, q | 0 <= p < q < |keys| :: keys[p] != keys[q]
    requires forall k | k in m :: k in keys
    ensures Snapshot(m, list)
  {
  }

  /**
   * getScooter's lookup: the URL split at every '/' must give exactly three
   * pieces, and the third one is the key; anything else is not found.
   */
  function ScooterAt(m: map<string, Scooter>, url: string): (r: Option<Scooter>)
    ensures Paths.Occurrences(url, '/') != 2 ==> r == None
    ensures r != None ==> r.value in m.Values
  {
    var parts := Paths.Split(url, '/');
    if |parts| != 3 then None
    else if parts[2] in m then Some(m[parts[2]])
    else None
  }

  /**
   * A URL of the form "/<root>/<id>", with no '/' inside root or id, finds
   * exactly the record stored under id.
   */
  lemma ScooterAtPath(m: map<string, Scooter>, root: string, id: string)
    requires '/' !in root && '/' !in id
    ensures ScooterAt(m, "/" + root + "/" + id) == if id in m then Some(m[id]) else None
  {
    var parts: seq<string> := ["", root, id];
    assert parts[1..] == [root, id];
    assert parts[1..][1..] == [id];
    assert Paths.Join([id], '/') == id;
    assert Paths.Join([root, id], '/') == root + "/" + id;
    assert Paths.Join(parts, '/') == "" + "/" + (root + "/" + id);
    assert "" + "/" + (root + "/" + id) == "/" + root + "/" + id;
    Paths.SplitJoin(parts, '/');
  }

  /** The body of a POST request as the handler sees it. */
  datatype PostBody =
    | Unreadable               // reading the request body failed
    | Malformed(message: string) // the body is not a JSON EScooter
    | Parsed(scooter: Scooter)

  /** The handler's reply: status and, where there is one, the payload. */
  datatype Response =
    | Ok
    | Listed(scooters: seq<Scooter>)
    | Found(scooter: Scooter)
    | NotFound
    | BadRequest(message: string)
    | InternalError
    | MethodNotAllowed

  /** What a POST does to the store and what it answers. */
  ghost predicate PostEffect(before: map<string, Scooter>, body: PostBody,
                             after: map<string, Scooter>, resp: Response)
  {
    match body
    case Unreadable => after == before && resp == InternalError
    case Malformed(message) => after == before && resp == BadRequest(message)
    case Parsed(incoming) => after == Upsert(before, incoming) && resp == Ok
  }

  class ScooterStore {
    var store: map<string, Scooter>

    ghost predicate Valid()
      reads this
    {
      WellKeyed(store)
    }

    /** newScootersHandlers: the store seeded from the decoded seed records. */
    constructor (seed: Seeding.Decoded)
      ensures Valid()
      ensures store == Seeding.Seeded(seed.records)
    {
      var m := Seeding.SetUp(seed);
      store := m;
    }

    /** post: merge-upsert of the decoded body; a body that cannot be read or decoded changes nothing. */
    method Post(body: PostBody) returns (resp: Response)
      requires Valid()
      modifies this
      ensures Valid()
      ensures PostEffect(old(store), body, store, resp)
    {
      match body
      case Unreadable =>
        resp := InternalError;
      case Malformed(message) =>
        resp := BadRequest(message);
      case Parsed(scooter) =>
        var existing := Lookup(store, scooter.id);
        var merged := Merge(existing, scooter);
        UpsertKeepsWellKeyed(store, scooter);
        store := store[scooter.id := merged];
        resp := Ok;
    }

    /** get: copies every stored record into a slice sized to the store. */
    method Get() returns (list: seq<Scooter>)
      requires Valid()
      ensures Snapshot(store, list)
    {
      var scooters := new Scooter[|store|](_ => Zero);
      var remaining := store.Keys;
      ghost var keys: seq<string> := [];
      var i := 0;
      while remaining != {}
        invariant i == |keys| && |remaining| + i == scooters.Length
        invariant Visited(store, remaining, keys)
        invariant scooters[..i] == Values(store, keys)
        decreases remaining
      {
        var id :| id in remaining;
        scooters[i] := store[id];
        assert scooters[..i + 1] == scooters[..i] + [store[id]];
        VisitStep(store, remaining, keys, id);
        keys := keys + [id];
        remaining := remaining - {id};
        i := i + 1;
      }
      list := scooters[..];
      assert list == scooters[..i];
      SnapshotFromKeys(store, keys, list);
    }

    /** getScooter: the record named by the last piece of a three-piece URL, or not found. */
    method GetScooter(url: string) returns (resp: Response)
      ensures resp == NotFound || resp.Found?
      ensures resp.Found? <==> ScooterAt(store, url) != None
      ensures resp.Found? ==> resp.scooter == ScooterAt(store, url).value
    {
      var url' := Paths.Split(url, '/');
      if |url'| != 3 {
        return NotFound;
      }
      if url'[2] !in store {
        return NotFound;
      }
      resp := Found(store[url'[2]]);
    }

    /** scooters: GET lists, POST merges, every other method is refused. */
    method Scooters(verb: string, body: PostBody) returns (resp: Response)
      requires Valid()
      modifies this
      ensures Valid()
      ensures verb == "GET" ==> store == old(store) && resp.Listed? && Snapshot(store, resp.scooters)
      ensures verb == "POST" ==> PostEffect(old(store), body, store, resp)
      ensures verb != "GET" && verb != "POST" ==> store == old(store) && resp == MethodNotAllowed
    {
      if verb == "GET" {
        var list := Get();
        resp := Listed(list);
      } else if verb == "POST" {
        resp := Post(body);
      } else {
        resp := MethodNotAllowed;
      }
    }
  }
}
