/** The user resource: an in-memory table of users and the five HTTP
    handlers that read and change it. Each handler is given as a function
    over the table (what it answers and what the table becomes) and as a
    method of `UserResourceImpl` that does the same in place. */
module Endpoints {
  import opened Models
  import opened Decimal
  import opened UserStore

  /** The statuses the handlers answer with. */
  datatype Status = OK | Created | NoContent | NotFound | InternalServerError {
    /** The HTTP status code. */
    function Code(): int {
      match this
      case OK => 200
      case Created => 201
      case NoContent => 204
      case NotFound => 404
      case InternalServerError => 500
    }
  }

  /** What a handler writes as the response body. */
  datatype Body = NoBody | Entity(user: User) | Entities(list: seq<User>) | ErrorText(text: string)

  datatype Response = Response(status: Status, body: Body)

  /** A handler's effect: the table afterwards and the response it wrote. */
  datatype Outcome = Outcome(users: map<string, User>, response: Response)

  const NotFoundMessage := "models.User could not be found."

  /** The four records the table starts with. */
  function Seed(): map<string, User> {
    map[
      "1" := User("1", "Mario", 35),
      "2" := User("2", "Luigi", 32),
      "3" := User("3", "Toad", 481),
      "4" := User("4", "Peach", 27)
    ]
  }

  /** GET /users/{id}: a missing key reads as the zero record, and a record
      with an empty ID is reported as not found. */
  function Find(m: map<string, User>, id: string): Response {
    var usr := if id in m then m[id] else ZeroUser;
    if |usr.id| == 0 then Response(NotFound, ErrorText(NotFoundMessage))
    else Response(OK, Entity(usr))
  }

  /** The write both PUT and POST perform: decode the body over `defaults`
      and, if that succeeds, file the record under its own ID. */
  function Write(m: map<string, User>, defaults: User, body: ReadOutcome, success: Status): Outcome {
    match ReadEntity(body, defaults)
    case Ok(usr) => Outcome(m[usr.id := usr], Response(success, Entity(usr)))
    case Err(e) => Outcome(m, Response(InternalServerError, ErrorText(e)))
  }

  /** PUT /users/{id}: the ID defaults to the path parameter. */
  function Upsert(m: map<string, User>, pathId: string, body: ReadOutcome): Outcome {
    Write(m, User(pathId, "", 0), body, OK)
  }

  /** POST /users: the ID defaults to the decimal Unix time in seconds. */
  function Create(m: map<string, User>, now: int, body: ReadOutcome): Outcome {
    Write(m, User(FormatInt(now), "", 0), body, Created)
  }

  /** DELETE /users/{id}. */
  function Remove(m: map<string, User>, id: string): Outcome {
    Outcome(m - {id}, Response(NoContent, NoBody))
  }

  // ----- What the handlers promise -----

  /** Since the Unix epoch's fifth second, no generated ID is a seed key. */
  lemma SeedKeysAreNotTimestamps(now: int)
    requires now > 4
    ensures FormatInt(now) !in Seed()
  {
  }

  /** The seed table satisfies the invariant, and listing it yields four records. */
  lemma SeedListing()
    ensures KeysMatchIds(Seed())
    ensures |Entries(Seed())| == 4
  {
    assert Seed().Keys == {"1", "2", "3", "4"};
    EntriesSize(Seed());
  }

  /** Under the invariant, a lookup succeeds exactly for a stored non-empty
      key, and then yields the record filed under it, whose ID is that key.
      Otherwise, the empty key included, it answers not found with the fixed
      message. */
  lemma FindUnderInvariant(m: map<string, User>, id: string)
    requires KeysMatchIds(m)
    ensures Find(m, id).status == OK <==> id in m && id != ""
    ensures Find(m, id).status == OK ==> Find(m, id).body == Entity(m[id]) && m[id].id == id
    ensures Find(m, id).status != OK ==> Find(m, id) == Response(NotFound, ErrorText(NotFoundMessage))
  {
  }

  /** A successful PUT files the decoded record under its ID, which is the
      path parameter unless the body carries one, and answers 200 with it.
      Every other key keeps its record; the table grows only for a new key. */
  lemma UpsertWrites(m: map<string, User>, pathId: string, p: Payload)
    ensures var key := p.id.GetOr(pathId);
            var rec := User(key, p.name.GetOr(""), p.age.GetOr(0));
            var o := Upsert(m, pathId, Decoded(p));
            && o.response == Response(OK, Entity(rec))
            && o.users.Keys == m.Keys + {key}
            && o.users[key] == rec
            && (forall k :: k in m && k != key ==> o.users[k] == m[k])
            && |o.users| == if key in m then |m| else |m| + 1
  {
  }

  /** PUT of a body without an ID or with the path ID itself, followed by GET
      of the same non-empty path, reads back the record that was written,
      whether the key was new or not. */
  lemma UpsertThenFind(m: map<string, User>, pathId: string, p: Payload)
    requires p.id.GetOr(pathId) == pathId && pathId != ""
    ensures Find(Upsert(m, pathId, Decoded(p)).users, pathId)
         == Response(OK, Entity(User(pathId, p.name.GetOr(""), p.age.GetOr(0))))
  {
  }

  /** A successful POST files the decoded record under its ID, which is the
      decimal timestamp unless the body carries one, and answers 201 with it.
      Every other key keeps its record; the table grows only for a new key. */
  lemma CreateWrites(m: map<string, User>, now: int, p: Payload)
    ensures var key := p.id.GetOr(FormatInt(now));
            var rec := User(key, p.name.GetOr(""), p.age.GetOr(0));
            var o := Create(m, now, Decoded(p));
            && o.response == Response(Created, Entity(rec))
            && o.users.Keys == m.Keys + {key}
            && o.users[key] == rec
            && (forall k :: k in m && k != key ==> o.users[k] == m[k])
            && |o.users| == if key in m then |m| else |m| + 1
  {
  }

  /** A record created without a body ID is found under its generated key. */
  lemma CreateThenFind(m: map<string, User>, now: int, p: Payload)
    requires p.id == None
    ensures var rec := User(FormatInt(now), p.name.GetOr(""), p.age.GetOr(0));
            Find(Create(m, now, Decoded(p)).users, FormatInt(now)) == Response(OK, Entity(rec))
  {
  }

  /** Two POSTs without a body ID write the same key exactly when they happen
      in the same second: the later one then replaces the earlier record. */
  lemma CreateKeysCollideOnlyWithinASecond(m: map<string, User>, now1: int, now2: int, p1: Payload, p2: Payload)
    requires p1.id == None && p2.id == None
    ensures var first := Create(m, now1, Decoded(p1));
            var second := Create(first.users, now2, Decoded(p2));
            && (now1 != now2 ==> second.users[FormatInt(now1)] == first.users[FormatInt(now1)])
            && (now1 == now2 ==>
                  |second.users| == |first.users| && second.users[FormatInt(now1)] == second.response.body.user)
  {
    FormatIntInjective(now1, now2);
  }

  /** A body that cannot be decoded leaves the table as it was, and the
      response carries the decoder's message. */
  lemma DecodeFailureLeavesTable(m: map<string, User>, pathId: string, now: int, e: string)
    ensures Upsert(m, pathId, DecodeFailed(e)) == Outcome(m, Response(InternalServerError, ErrorText(e)))
    ensures Create(m, now, DecodeFailed(e)) == Outcome(m, Response(InternalServerError, ErrorText(e)))
  {
  }

  /** DELETE always answers 204; afterwards the key is gone and a lookup of
      it answers not found; no other key changes, and deleting an absent key
      changes nothing. */
  lemma RemoveEffect(m: map<string, User>, id: string)
    ensures var o := Remove(m, id);
            && o.response == Response(NoContent, NoBody)
            && id !in o.users
            && Find(o.users, id).status == NotFound
            && o.users.Keys == m.Keys - {id}
            && (forall k :: k in o.users ==> o.users[k] == m[k])
            && (id !in m ==> o.users == m)
  {
  }

  /** Every write is filed under the written record's own ID, so each of the
      three changing handlers keeps the invariant. */
  lemma UpsertKeepsKeysMatchIds(m: map<string, User>, pathId: string, body: ReadOutcome)
    requires KeysMatchIds(m)
    ensures KeysMatchIds(Upsert(m, pathId, body).users)
  {
  }

  lemma CreateKeepsKeysMatchIds(m: map<string, User>, now: int, body: ReadOutcome)
    requires KeysMatchIds(m)
    ensures KeysMatchIds(Create(m, now, body).users)
  {
  }

  lemma RemoveKeepsKeysMatchIds(m: map<string, User>, id: string)
    requires KeysMatchIds(m)
    ensures KeysMatchIds(Remove(m, id).users)
  {
  }

  // ----- The resource, updated in place -----

  class UserResourceImpl {
    var users: map<string, User>

    ghost predicate Valid()
      reads this
    {
      KeysMatchIds(users)
    }

    constructor ()
      ensures users == Seed() && Valid()
    {
      users := Seed();
    }

    /** GET /users: every record, one list element per entry, in whatever
        order the traversal visits the keys. */
    method FindAllUsers() returns (r: Response)
      ensures r.status == OK && r.body.Entities?
      ensures multiset(r.body.list) == Entries(users)
      ensures |r.body.list| == |users|
    {
      var list: seq<User> := [];
      var rest := users;
      while rest != map[]
        invariant multiset(list) + Entries(rest) == Entries(users)
        decreases |rest|
      {
        var k :| k in rest;
        EntriesRemove(rest, k);
        list := list + [rest[k]];
        assert rest.Keys - {k} < rest.Keys;
        rest := rest - {k};
      }
      EntriesSize(users);
      r := Response(OK, Entities(list));
    }

    /** GET /users/{id}: computes `Find` on the current table. */
    method FindUser(id: string) returns (r: Response)
      ensures r == Find(users, id)
    {
      var usr := if id in users then users[id] else ZeroUser;
      if |usr.id| == 0 {
        r := Response(NotFound, ErrorText(NotFoundMessage));
      } else {
        r := Response(OK, Entity(usr));
      }
    }

    /** PUT /users/{id}: performs `Upsert` (that is, `Write`) in place. */
    method UpsertUser(pathId: string, body: ReadOutcome) returns (r: Response)
      modifies this
      ensures Outcome(users, r) == Upsert(old(users), pathId, body)
      ensures old(Valid()) ==> Valid()
    {
      var usr := User(pathId, "", 0);
      match ReadEntity(body, usr)
      case Ok(decoded) =>
        usr := decoded;
        users := users[usr.id := usr];
        r := Response(OK, Entity(usr));
      case Err(e) =>
        r := Response(InternalServerError, ErrorText(e));
    }

    /** POST /users, at Unix time `now` (in seconds): performs `Create`
        (that is, `Write`) in place. */
    method CreateUser(now: int, body: ReadOutcome) returns (r: Response)
      modifies this
      ensures Outcome(users, r) == Create(old(users), now, body)
      ensures old(Valid()) ==> Valid()
    {
      var usr := User(FormatInt(now), "", 0);
      match ReadEntity(body, usr)
      case Ok(decoded) =>
        usr := decoded;
        users := users[usr.id := usr];
        r := Response(Created, Entity(usr));
      case Err(e) =>
        r := Response(InternalServerError, ErrorText(e));
    }

    /** DELETE /users/{id}: performs `Remove` in place. */
    method RemoveUser(id: string) returns (r: Response)
      modifies this
      ensures Outcome(users, r) == Remove(old(users), id)
      ensures old(Valid()) ==> Valid()
    {
      users := users - {id};
      r := Response(NoContent, NoBody);
    }
  }

  /** The request sequence of the repository's handler tests, replayed on one
      resource: what each step answers follows from the contracts above. */
  method SeedScenario(now: int)
    requires now > 4
  {
    var resource := new UserResourceImpl();

    var all := resource.FindAllUsers();
    SeedListing();
    assert all.status.Code() == 200 && |all.body.list| == 4;

    var mario := resource.FindUser("1");
    assert mario == Response(OK, Entity(User("1", "Mario", 35)));

    var missing := resource.FindUser("notFound");
    assert missing.status.Code() == 404;

    var before := resource.users;
    var bowser := Payload(None, Some("Bowser"), Some(13));
    var created := resource.CreateUser(now, Decoded(bowser));
    assert created.status.Code() == 201;
    SeedKeysAreNotTimestamps(now);
    CreateWrites(before, now, bowser);
    assert |resource.users| == 5;

    before := resource.users;
    var rejected := resource.CreateUser(now, DecodeFailed("test error"));
    assert rejected.body == ErrorText("test error") && resource.users == before;

    var older := Payload(Some("1"), Some("Mario"), Some(40));
    UpsertWrites(resource.users, "1", older);
    var updated := resource.UpsertUser("1", Decoded(older));
    assert updated.status.Code() == 200 && resource.users["1"].age == 40;

    var rosalina := Payload(Some("6"), Some("Rosalina"), Some(200));
    UpsertWrites(resource.users, "6", rosalina);
    var inserted := resource.UpsertUser("6", Decoded(rosalina));
    assert "6" in resource.users && resource.users["6"].name == "Rosalina";

    before := resource.users;
    var failed := resource.UpsertUser("1", DecodeFailed("test error"));
    assert failed.body == ErrorText("test error") && resource.users == before;

    var removed := resource.RemoveUser("1");
    assert removed == Response(NoContent, NoBody) && "1" !in resource.users;
  }
}
