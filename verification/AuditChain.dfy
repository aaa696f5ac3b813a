/**
  * The audit hash chain (packages/database/src/migrations/index.ts, migration 0002): a trigger links each
  * inserted row to the one before it by a hash, and a function walks the chain to verify it. The hash is
  * any function `H` whose values are hexadecimal digests; nothing else is assumed of it, so each theorem
  * that needs collision freedom exhibits the collision instead.
  */
module AuditChain {
  import opened Prelude

  predicate NoBar(s: string) { '|' !in s }

  /** The text of a timestamp; it never contains the separator. */
  type Stamp = s: string | NoBar(s) witness ""

  /** The columns the hash covers. `createdAt` is an instant; its text is the business of a `Rendering`. */
  datatype Entry = Entry(
    action: string,
    targetType: string,
    targetId: string,
    beforeDigest: Option<string>,
    afterDigest: Option<string>,
    correlationId: string,
    createdAt: int)

  /** The columns no hash covers: whose event it is, who caused it, from where, and its metadata. */
  datatype Unhashed = Unhashed(
    tenantId: Option<nat>,
    actorType: string,
    actorUserId: Option<nat>,
    ipHash: Option<string>,
    userAgentHash: Option<string>,
    metadata: string)

  datatype Row = Row(id: nat, entry: Entry, unhashed: Unhashed, prevHash: Option<string>, entryHash: string)

  /** How a database session writes an instant as text; time zone and date style are settings of the session. */
  type Rendering = int -> Stamp

  function Coalesce(s: Option<string>): string { if s.Some? then s.value else "" }

  /** What follows the previous hash in the hashed text. */
  function Payload(show: Rendering, e: Entry): string {
    "|" + (e.action + ("|" + (e.targetType + ("|" + (e.targetId + ("|" + (Coalesce(e.beforeDigest) +
    ("|" + (Coalesce(e.afterDigest) + ("|" + (e.correlationId + ("|" + show(e.createdAt)))))))))))))
  }

  function Hashed(show: Rendering, prev: Option<string>, e: Entry): string { Coalesce(prev) + Payload(show, e) }

  predicate IsDigest(s: string) {
    |s| == 64 && forall i | 0 <= i < |s| :: s[i] in "0123456789abcdef"
  }

  ghost predicate Digests(H: string -> string) { forall x: string :: IsDigest(H(x)) }

  function LastHash(rows: seq<Row>): Option<string> {
    if rows == [] then None else Some(rows[|rows| - 1].entryHash)
  }

  /** The hash that row `i` must carry as its predecessor's. */
  function PrevHash(rows: seq<Row>, i: nat): Option<string>
    requires i <= |rows|
  {
    if i == 0 then None else Some(rows[i - 1].entryHash)
  }

  predicate Linked(H: string -> string, show: Rendering, prev: Option<string>, row: Row) {
    row.prevHash == prev && row.entryHash == H(Hashed(show, prev, row.entry))
  }

  predicate LinkedAt(H: string -> string, show: Rendering, rows: seq<Row>, i: nat)
    requires i < |rows|
  {
    Linked(H, show, PrevHash(rows, i), rows[i])
  }

  /** Every row carries the hash of the row before it and its own hash is right. */
  predicate Verified(H: string -> string, show: Rendering, rows: seq<Row>) {
    forall i | 0 <= i < |rows| :: LinkedAt(H, show, rows, i)
  }

  /** Row `i` was inserted by a session that renders instants by `shows[i]`. */
  predicate Built(H: string -> string, shows: seq<Rendering>, rows: seq<Row>) {
    |shows| == |rows| && forall i | 0 <= i < |rows| :: LinkedAt(H, shows[i], rows, i)
  }

  class AuditLog {
    const H: string -> string
    var rows: seq<Row>

    constructor (H: string -> string)
      ensures this.H == H && rows == []
    {
      this.H := H;
      rows := [];
    }

    /** The insert trigger. Ids come from a sequence, so the last row has the greatest. */
    method Insert(show: Rendering, id: nat, e: Entry, unhashed: Unhashed)
      modifies this`rows
      ensures |rows| == |old(rows)| + 1 && rows[..|old(rows)|] == old(rows)
      ensures
        var row := rows[|old(rows)|];
        row.id == id && row.entry == e && row.unhashed == unhashed && Linked(H, show, LastHash(old(rows)), row)
      ensures Verified(H, show, old(rows)) ==> Verified(H, show, rows)
      ensures forall shows :: Built(H, shows, old(rows)) ==> Built(H, shows + [show], rows)
    {
      var prev := LastHash(rows);
      var row := Row(id, e, unhashed, prev, H(Hashed(show, prev, e)));
      ghost var before := rows;
      rows := rows + [row];
      assert rows[..|before|] == before;
      LinkedExtends(H, before, row);
      assert LinkedAt(H, show, rows, |before|);
    }

    /** Walks the chain and stops at the first row that does not fit. */
    method VerifyAuditChain(show: Rendering) returns (ok: bool, checked: nat, firstBrokenId: Option<nat>)
      ensures ok <==> Verified(H, show, rows)
      ensures ok ==> checked == |rows| && firstBrokenId == None
      ensures !ok ==>
                1 <= checked <= |rows| && firstBrokenId == Some(rows[checked - 1].id)
                && Verified(H, show, rows[..checked - 1])
                && !LinkedAt(H, show, rows, checked - 1)
    {
      hide Payload;
      ok, checked := true, 0;
      var prev: Option<string> := None;
      for i := 0 to |rows|
        invariant ok && checked == i && prev == PrevHash(rows, i)
        invariant forall k :: 0 <= k < i ==> LinkedAt(H, show, rows, k)
      {
        var rec := rows[i];
        checked := checked + 1;
        var expected := H(Hashed(show, prev, rec.entry));
        if rec.prevHash != prev || rec.entryHash != expected {
          assert !LinkedAt(H, show, rows, i);
          PrefixVerified(H, show, rows, i);
          return false, checked, Some(rec.id);
        }
        prev := Some(rec.entryHash);
      }
      return true, checked, None;
    }
  }

  /** Appending a row leaves the earlier links as they were. */
  lemma LinkedExtends(H: string -> string, c: seq<Row>, row: Row)
    ensures forall show, i | 0 <= i < |c| :: LinkedAt(H, show, c + [row], i) <==> LinkedAt(H, show, c, i)
  {
  }

  lemma PrefixVerified(H: string -> string, show: Rendering, c: seq<Row>, n: nat)
    requires n <= |c| && forall k :: 0 <= k < n ==> LinkedAt(H, show, c, k)
    ensures Verified(H, show, c[..n])
  {
    hide Linked;
    forall k | 0 <= k < n ensures LinkedAt(H, show, c[..n], k) {
      assert LinkedAt(H, show, c, k);
    }
  }

  // ------------------------------------------------------------------ what a verified chain proves

  predicate Collision(H: string -> string, x: string, y: string) { x != y && H(x) == H(y) }

  function HashedAt(show: Rendering, c: seq<Row>, i: nat): string
    requires i < |c|
  {
    Hashed(show, c[i].prevHash, c[i].entry)
  }

  /** Somewhere in the two chains different texts have the same hash. */
  ghost predicate CollisionIn(H: string -> string, show: Rendering, c: seq<Row>, d: seq<Row>) {
    exists i, j :: 0 <= i < |c| && 0 <= j < |d| && Collision(H, HashedAt(show, c, i), HashedAt(show, d, j))
  }

  ghost predicate SameHistory(show: Rendering, c: seq<Row>, d: seq<Row>) {
    |c| == |d| && forall i | 0 <= i < |c| ::
      && c[i].prevHash == d[i].prevHash && c[i].entryHash == d[i].entryHash
      && Payload(show, c[i].entry) == Payload(show, d[i].entry)
  }

  lemma PayloadStartsWithBar(show: Rendering, e: Entry)
    ensures Payload(show, e) != "" && Payload(show, e)[0] == '|'
  {
  }

  /** A digest contains no bar, so the previous hash can be read off the hashed text. */
  lemma HashedSplits(show: Rendering, p: Option<string>, a: Entry, q: Option<string>, b: Entry)
    requires p.Some? ==> IsDigest(p.value)
    requires q.Some? ==> IsDigest(q.value)
    requires Hashed(show, p, a) == Hashed(show, q, b)
    ensures p == q && Payload(show, a) == Payload(show, b)
  {
    PayloadStartsWithBar(show, a);
    PayloadStartsWithBar(show, b);
    hide Payload;
    var s := Hashed(show, p, a);
    FirstOfHashed(show, p, a);
    FirstOfHashed(show, q, b);
    if p.Some? {
      assert p.value == s[..64] && q.value == s[..64];
      assert Payload(show, a) == s[64..] && Payload(show, b) == s[64..];
    } else {
      assert s == Payload(show, a) && s == Payload(show, b);
    }
  }

  lemma FirstOfHashed(show: Rendering, p: Option<string>, e: Entry)
    requires p.Some? ==> IsDigest(p.value)
    ensures Hashed(show, p, e) != "" && (Hashed(show, p, e)[0] == '|' <==> p.None?)
  {
    PayloadStartsWithBar(show, e);
    hide Payload;
    if p.Some? {
      var hex := "0123456789abcdef";
      assert Hashed(show, p, e)[0] == p.value[0] && p.value[0] in hex;
      assert forall k :: 0 <= k < |hex| ==> hex[k] != '|';
    } else {
      assert Hashed(show, p, e) == Payload(show, e);
    }
  }

  lemma VerifiedPrefix(H: string -> string, show: Rendering, c: seq<Row>, n: nat)
    requires Verified(H, show, c) && n <= |c|
    ensures Verified(H, show, c[..n])
  {
    PrefixVerified(H, show, c, n);
  }

  lemma PrefixCollision(H: string -> string, show: Rendering, c: seq<Row>, d: seq<Row>, m: nat, n: nat)
    requires m <= |c| && n <= |d| && CollisionIn(H, show, c[..m], d[..n])
    ensures CollisionIn(H, show, c, d)
  {
    var i, j :| 0 <= i < m && 0 <= j < n && Collision(H, HashedAt(show, c[..m], i), HashedAt(show, d[..n], j));
    assert HashedAt(show, c[..m], i) == HashedAt(show, c, i) && HashedAt(show, d[..n], j) == HashedAt(show, d, j);
  }

  /** The last hash fixes the whole history: two verified chains that end in the same hash agree row by row,
      or they exhibit a collision. */
  lemma {:induction false} SameEndSameHistory(H: string -> string, show: Rendering, c: seq<Row>, d: seq<Row>)
    requires Digests(H) && Verified(H, show, c) && Verified(H, show, d)
    requires c != [] && d != [] && LastHash(c) == LastHash(d)
    ensures SameHistory(show, c, d) || CollisionIn(H, show, c, d)
    decreases |c|
  {
    hide Payload, Hashed, IsDigest;
    var m, n := |c| - 1, |d| - 1;
    assert LinkedAt(H, show, c, m) && LinkedAt(H, show, d, n);
    if HashedAt(show, c, m) != HashedAt(show, d, n) {
      assert Collision(H, HashedAt(show, c, m), HashedAt(show, d, n));
    } else {
      VerifiedPrefix(H, show, c, m);
      VerifiedPrefix(H, show, d, n);
      PrevIsDigest(H, show, c, m);
      PrevIsDigest(H, show, d, n);
      HashedSplits(show, c[m].prevHash, c[m].entry, d[n].prevHash, d[n].entry);
      if m > 0 {
        SameEndSameHistory(H, show, c[..m], d[..n]);
        if CollisionIn(H, show, c[..m], d[..n]) { PrefixCollision(H, show, c, d, m, n); }
        else { HistoryGrows(show, c, d, m); }
      }
    }
  }

  /** A table passes for the chain `c` when it verifies and ends in the last hash remembered of `c`. */
  predicate PassesFor(H: string -> string, show: Rendering, c: seq<Row>, d: seq<Row>) {
    Verified(H, show, d) && LastHash(d) == LastHash(c)
  }

  /** Exactly what a remembered last hash fixes, short of a collision: the hashes and the hashed payloads, and
      nothing else of a row. */
  lemma LastHashFixesHistoryIff(H: string -> string, show: Rendering, c: seq<Row>, d: seq<Row>)
    requires Digests(H) && Verified(H, show, c) && c != []
    ensures SameHistory(show, c, d) ==> PassesFor(H, show, c, d)
    ensures PassesFor(H, show, c, d) ==> SameHistory(show, c, d) || CollisionIn(H, show, c, d)
  {
    hide Payload, CollisionIn;
    if SameHistory(show, c, d) {
      forall i | 0 <= i < |d| ensures LinkedAt(H, show, d, i) { assert LinkedAt(H, show, c, i); }
    }
    if PassesFor(H, show, c, d) { SameEndSameHistory(H, show, c, d); }
  }

  /** The rows differ at most in the columns no hash covers. */
  predicate SameButUnhashed(c: seq<Row>, d: seq<Row>) {
    |c| == |d| && forall i | 0 <= i < |c| :: d[i] == c[i].(unhashed := d[i].unhashed)
  }

  /** Tenant, actor, addresses and metadata of every row can be rewritten at will: the chain verifies as before
      and ends in the same hash. */
  lemma UnhashedColumnsAreFree(H: string -> string, show: Rendering, c: seq<Row>, d: seq<Row>)
    requires Verified(H, show, c) && SameButUnhashed(c, d)
    ensures PassesFor(H, show, c, d)
  {
    hide Hashed;
    forall i | 0 <= i < |d| ensures LinkedAt(H, show, d, i) { assert LinkedAt(H, show, c, i); }
  }

  lemma PrevIsDigest(H: string -> string, show: Rendering, c: seq<Row>, i: nat)
    requires Digests(H) && Verified(H, show, c) && i < |c|
    ensures c[i].prevHash.Some? <==> i > 0
    ensures i > 0 ==> c[i].prevHash == Some(c[i - 1].entryHash) && IsDigest(c[i - 1].entryHash)
  {
    hide Payload, Hashed, IsDigest;
    assert LinkedAt(H, show, c, i);
    if i > 0 { assert LinkedAt(H, show, c, i - 1); }
  }

  lemma HistoryGrows(show: Rendering, c: seq<Row>, d: seq<Row>, n: nat)
    requires |c| == |d| == n + 1 && SameHistory(show, c[..n], d[..n])
    requires c[n].prevHash == d[n].prevHash && c[n].entryHash == d[n].entryHash
        && Payload(show, c[n].entry) == Payload(show, d[n].entry)
    ensures SameHistory(show, c, d)
  {
    hide Payload;
    forall i | 0 <= i < n + 1
      ensures c[i].prevHash == d[i].prevHash && c[i].entryHash == d[i].entryHash
          && Payload(show, c[i].entry) == Payload(show, d[i].entry)
    {
      if i < n { assert c[..n][i] == c[i] && d[..n][i] == d[i]; }
    }
  }

  /** No hash occurs twice in a verified chain, short of a collision. */
  lemma HashesAreDistinct(H: string -> string, show: Rendering, c: seq<Row>, i: nat, j: nat)
    requires Digests(H) && Verified(H, show, c) && i < j < |c|
    ensures c[i].entryHash != c[j].entryHash || CollisionIn(H, show, c, c)
  {
    hide Payload, Hashed, IsDigest, HashedAt, Linked;
    if c[i].entryHash == c[j].entryHash {
      VerifiedPrefix(H, show, c, i + 1);
      VerifiedPrefix(H, show, c, j + 1);
      SameEndSameHistory(H, show, c[..i + 1], c[..j + 1]);
      PrefixCollision(H, show, c, c, i + 1, j + 1);
    }
  }

  /** Two inserts that both read the same last row break the chain, short of a collision. */
  lemma ConcurrentInsertsBreakTheChain(H: string -> string, show: Rendering, c: seq<Row>, first: Row, second: Row)
    requires Digests(H) && c != [] && Verified(H, show, c + [first, second])
    requires first.prevHash == LastHash(c) && second.prevHash == LastHash(c)
    ensures CollisionIn(H, show, c + [first, second], c + [first, second])
  {
    hide Payload, Hashed, IsDigest, HashedAt;
    var d := c + [first, second];
    var n := |c|;
    assert LinkedAt(H, show, d, n + 1);
    HashesAreDistinct(H, show, d, n - 1, n);
  }

  /** Cutting rows off the end leaves a chain that still verifies; only a remembered last hash reveals it. */
  lemma TruncationVerifies(H: string -> string, show: Rendering, c: seq<Row>, n: nat)
    requires Verified(H, show, c) && n <= |c|
    ensures Verified(H, show, c[..n])
    ensures 0 < n < |c| && Digests(H) ==> LastHash(c[..n]) != LastHash(c) || CollisionIn(H, show, c, c)
  {
    hide Payload, Hashed, IsDigest, HashedAt, Linked;
    VerifiedPrefix(H, show, c, n);
    if 0 < n < |c| && Digests(H) { HashesAreDistinct(H, show, c, n - 1, |c| - 1); }
  }

  // ------------------------------------------------------------------ verifying in another session

  /** A row linked by a session that renders by `f` is accepted by one that renders by `g` exactly when both
      write its instant alike, or the two texts collide. */
  lemma RenderingDecides(H: string -> string, f: Rendering, g: Rendering, c: seq<Row>, i: nat)
    requires i < |c| && LinkedAt(H, f, c, i)
    ensures
      LinkedAt(H, g, c, i) <==>
        f(c[i].entry.createdAt) == g(c[i].entry.createdAt) || Collision(H, HashedAt(f, c, i), HashedAt(g, c, i))
  {
    var p, e := Coalesce(c[i].prevHash), c[i].entry;
    HashedUpToStamp(f, c[i].prevHash, e);
    HashedUpToStamp(g, c[i].prevHash, e);
    var a, s, t := BeforeStamp(c[i].prevHash, e), f(e.createdAt), g(e.createdAt);
    assert (a + s)[|a|..] == s && (a + t)[|a|..] == t;
    hide Payload, Hashed, BeforeStamp;
  }

  /** The hashed text without the timestamp at its end. */
  function BeforeStamp(prev: Option<string>, e: Entry): string {
    Coalesce(prev) + ("|" + (e.action + ("|" + (e.targetType + ("|" + (e.targetId + ("|" + (Coalesce(e.beforeDigest) +
    ("|" + (Coalesce(e.afterDigest) + ("|" + (e.correlationId + "|"))))))))))))
  }

  lemma HashedUpToStamp(show: Rendering, prev: Option<string>, e: Entry)
    ensures Hashed(show, prev, e) == BeforeStamp(prev, e) + show(e.createdAt)
  {
  }

  /** A chain built by inserts alone, each under its session's settings, verifies in a session that renders by
      `g` exactly when every row's instant is written there as it was when the row was inserted. */
  lemma VerifiesUnderIff(H: string -> string, shows: seq<Rendering>, g: Rendering, c: seq<Row>)
    requires Built(H, shows, c)
    ensures
      Verified(H, g, c) <==>
        forall i | 0 <= i < |c| ::
          shows[i](c[i].entry.createdAt) == g(c[i].entry.createdAt)
          || Collision(H, HashedAt(shows[i], c, i), HashedAt(g, c, i))
  {
    hide Linked, Collision, HashedAt;
    forall i | 0 <= i < |c|
      ensures LinkedAt(H, g, c, i) <==>
        shows[i](c[i].entry.createdAt) == g(c[i].entry.createdAt)
        || Collision(H, HashedAt(shows[i], c, i), HashedAt(g, c, i))
    {
      RenderingDecides(H, shows[i], g, c, i);
    }
  }

  // ------------------------------------------------------------------ what the payload does not say

  lemma SplitAtBar(a: string, r: string, b: string, s: string)
    requires NoBar(a) && NoBar(b)
    requires a + ("|" + r) == b + ("|" + s)
    ensures a == b && r == s
  {
    var x, y := a + ("|" + r), b + ("|" + s);
    assert x[|a|] == '|' && forall k :: 0 <= k < |a| ==> x[k] == a[k] && a[k] in a;
    assert y[|b|] == '|' && forall k :: 0 <= k < |b| ==> y[k] == b[k] && b[k] in b;
    assert |a| == |b|;
    assert a == x[..|a|] && b == x[..|a|];
    assert r == x[|a| + 1..] && s == x[|a| + 1..];
  }

  /** The texts between the separators of a payload. */
  ghost predicate SameTexts(show: Rendering, a: Entry, b: Entry) {
    && a.action == b.action && a.targetType == b.targetType && a.targetId == b.targetId
    && Coalesce(a.beforeDigest) == Coalesce(b.beforeDigest) && Coalesce(a.afterDigest) == Coalesce(b.afterDigest)
    && a.correlationId == b.correlationId && show(a.createdAt) == show(b.createdAt)
  }

  predicate BarFree(e: Entry) {
    && NoBar(e.action) && NoBar(e.targetType) && NoBar(e.targetId) && NoBar(Coalesce(e.beforeDigest))
    && NoBar(Coalesce(e.afterDigest)) && NoBar(e.correlationId)
  }

  lemma BarFreePayloads(show: Rendering, a: Entry, b: Entry)
    requires BarFree(a) && BarFree(b) && Payload(show, a) == Payload(show, b)
    ensures SameTexts(show, a, b)
  {
    var a6, b6 := show(a.createdAt), show(b.createdAt);
    var a5, b5 := a.correlationId + ("|" + a6), b.correlationId + ("|" + b6);
    var a4, b4 := Coalesce(a.afterDigest) + ("|" + a5), Coalesce(b.afterDigest) + ("|" + b5);
    var a3, b3 := Coalesce(a.beforeDigest) + ("|" + a4), Coalesce(b.beforeDigest) + ("|" + b4);
    var a2, b2 := a.targetId + ("|" + a3), b.targetId + ("|" + b3);
    var a1, b1 := a.targetType + ("|" + a2), b.targetType + ("|" + b2);
    var a0, b0 := a.action + ("|" + a1), b.action + ("|" + b1);
    assert Payload(show, a) == "|" + a0 && Payload(show, b) == "|" + b0;
    hide Payload;
    SplitAtBar("", a0, "", b0) by { assert "" + ("|" + a0) == "" + ("|" + b0); }
    SplitAtBar(a.action, a1, b.action, b1);
    SplitAtBar(a.targetType, a2, b.targetType, b2);
    SplitAtBar(a.targetId, a3, b.targetId, b3);
    SplitAtBar(Coalesce(a.beforeDigest), a4, Coalesce(b.beforeDigest), b4);
    SplitAtBar(Coalesce(a.afterDigest), a5, Coalesce(b.afterDigest), b5);
    SplitAtBar(a.correlationId, a6, b.correlationId, b6);
  }

  // --- exactly which entries share their payload

  function Bars(s: string): nat {
    if s == [] then 0 else (if s[0] == '|' then 1 else 0) + Bars(s[1..])
  }

  lemma {:induction false} BarsOfConcat(a: string, b: string)
    ensures Bars(a + b) == Bars(a) + Bars(b)
  {
    if a == [] {
      assert a + b == b;
    } else {
      BarsOfConcat(a[1..], b);
      assert (a + b)[1..] == a[1..] + b;
    }
  }

  lemma {:induction false} NoBarMeansNone(s: string)
    ensures NoBar(s) <==> Bars(s) == 0
  {
    if s == [] {
    } else {
      NoBarMeansNone(s[1..]);
      assert s == [s[0]] + s[1..];
    }
  }

  lemma BarsAfter(a: string, r: string)
    ensures Bars(a + ("|" + r)) == Bars(a) + 1 + Bars(r)
  {
    BarsOfConcat(a, "|" + r);
    BarsOfConcat("|", r);
    assert Bars("|") == 1 + Bars("|"[1..]);
  }

  lemma BarsOfPayload(show: Rendering, e: Entry)
    ensures Bars(Payload(show, e)) == 7 + Bars(e.action) + Bars(e.targetType) + Bars(e.targetId)
        + Bars(Coalesce(e.beforeDigest))
                                + Bars(Coalesce(e.afterDigest)) + Bars(e.correlationId)
  {
    var e5 := e.correlationId + ("|" + show(e.createdAt));
    var e4 := Coalesce(e.afterDigest) + ("|" + e5);
    var e3 := Coalesce(e.beforeDigest) + ("|" + e4);
    var e2 := e.targetId + ("|" + e3);
    var e1 := e.targetType + ("|" + e2);
    var e0 := e.action + ("|" + e1);
    assert Payload(show, e) == "|" + e0;
    hide Payload, Bars, Coalesce;
    assert "|" + e0 == "" + ("|" + e0);
    BarsAfter("", e0);
    BarsAfter(e.action, e1);
    BarsAfter(e.targetType, e2);
    BarsAfter(e.targetId, e3);
    BarsAfter(Coalesce(e.beforeDigest), e4);
    BarsAfter(Coalesce(e.afterDigest), e5);
    BarsAfter(e.correlationId, show(e.createdAt));
    NoBarMeansNone(show(e.createdAt));
    NoBarMeansNone("");
  }

  lemma BarFreeIff(show: Rendering, e: Entry)
    ensures BarFree(e) <==> Bars(Payload(show, e)) == 7
  {
    BarsOfPayload(show, e);
    NoBarMeansNone(e.action);
    NoBarMeansNone(e.targetType);
    NoBarMeansNone(e.targetId);
    NoBarMeansNone(Coalesce(e.beforeDigest));
    NoBarMeansNone(Coalesce(e.afterDigest));
    NoBarMeansNone(e.correlationId);
    hide Payload, Bars, NoBar, Coalesce;
  }

  predicate Blank(digest: Option<string>) { Coalesce(digest) == "" }

  /** A field contains the separator, or a digest is absent or empty. */
  predicate Loose(e: Entry) { !BarFree(e) || Blank(e.beforeDigest) || Blank(e.afterDigest) }

  /** Or another instant is written with the same text. */
  ghost predicate Ambiguous(show: Rendering, e: Entry) {
    Loose(e) || exists t :: t != e.createdAt && show(t) == show(e.createdAt)
  }

  lemma UnambiguousIsUnique(show: Rendering, a: Entry, b: Entry)
    requires !Ambiguous(show, a) && Payload(show, a) == Payload(show, b)
    ensures a == b
  {
    BarFreeIff(show, a);
    BarFreeIff(show, b);
    hide Payload, BarFree, Bars;
    BarFreePayloads(show, a, b);
  }

  /** The text in front of the first separator, and the text behind it. */
  function Head(s: string): (r: string)
    ensures r <= s && (!NoBar(s) ==> |r| < |s| && s[|r|] == '|')
  {
    if s == [] || s[0] == '|' then "" else [s[0]] + Head(s[1..])
  }

  function Tail(s: string): string
    requires !NoBar(s)
  {
    s[|Head(s)| + 1..]
  }

  lemma HeadAndTail(s: string)
    requires !NoBar(s)
    ensures s == Head(s) + ("|" + Tail(s))
  {
    hide NoBar;
    var n := |Head(s)|;
    assert s == s[..n] + ([s[n]] + s[n + 1..]);
  }

  /** Another entry with the same payload: the other kind of blank digest, or a separator moved to the next or
      previous field. */
  function Twin(e: Entry): Entry
    requires Loose(e)
  {
    var before, after := Coalesce(e.beforeDigest), Coalesce(e.afterDigest);
    if Blank(e.beforeDigest) then e.(beforeDigest := Other(e.beforeDigest))
    else if Blank(e.afterDigest) then e.(afterDigest := Other(e.afterDigest))
    else if !NoBar(e.action) then
      e.(action := Head(e.action), targetType := Tail(e.action) + ("|" + e.targetType))
    else if !NoBar(e.targetType) then
      e.(action := e.action + ("|" + Head(e.targetType)), targetType := Tail(e.targetType))
    else if !NoBar(e.targetId) then
      e.(targetType := e.targetType + ("|" + Head(e.targetId)), targetId := Tail(e.targetId))
    else if !NoBar(before) then
      e.(targetId := e.targetId + ("|" + Head(before)), beforeDigest := Some(Tail(before)))
    else if !NoBar(after) then
      e.(beforeDigest := Some(before + ("|" + Head(after))), afterDigest := Some(Tail(after)))
    else
      e.(afterDigest := Some(after + ("|" + Head(e.correlationId))), correlationId := Tail(e.correlationId))
  }

  function Other(digest: Option<string>): Option<string> { if digest.None? then Some("") else None }

  lemma MoveToPrevious(previous: string, x: string, y: string, r: string)
    ensures previous + ("|" + ((x + ("|" + y)) + r)) == (previous + ("|" + x)) + ("|" + (y + r))
  {
  }

  lemma MoveToNext(x: string, y: string, next: string, r: string)
    ensures (x + ("|" + y)) + ("|" + (next + r)) == x + ("|" + ((y + ("|" + next)) + r))
  {
  }

  lemma TwinDiffers(e: Entry)
    requires Loose(e)
    ensures Twin(e) != e
  {
    if !NoBar(e.action) { HeadAndTail(e.action); }
    if !NoBar(e.targetType) { HeadAndTail(e.targetType); }
    if !NoBar(e.targetId) { HeadAndTail(e.targetId); }
    if !NoBar(Coalesce(e.beforeDigest)) { HeadAndTail(Coalesce(e.beforeDigest)); }
    if !NoBar(Coalesce(e.afterDigest)) { HeadAndTail(Coalesce(e.afterDigest)); }
    if !NoBar(e.correlationId) { HeadAndTail(e.correlationId); }
    hide Head, NoBar;
  }

  lemma TwinHasSamePayload(show: Rendering, e: Entry)
    requires Loose(e)
    ensures Payload(show, Twin(e)) == Payload(show, e)
  {
    var e5 := e.correlationId + ("|" + show(e.createdAt));
    var e4 := Coalesce(e.afterDigest) + ("|" + e5);
    var e3 := Coalesce(e.beforeDigest) + ("|" + e4);
    var e2 := e.targetId + ("|" + e3);
    assert Payload(show, e) == "|" + (e.action + ("|" + (e.targetType + ("|" + e2))));
    if Blank(e.beforeDigest) || Blank(e.afterDigest) {
    } else if !NoBar(e.action) {
      HeadAndTail(e.action);
      MoveToNext(Head(e.action), Tail(e.action), e.targetType, "|" + e2);
    } else if !NoBar(e.targetType) {
      HeadAndTail(e.targetType);
      MoveToPrevious(e.action, Head(e.targetType), Tail(e.targetType), "|" + e2);
    } else if !NoBar(e.targetId) {
      HeadAndTail(e.targetId);
      MoveToPrevious(e.targetType, Head(e.targetId), Tail(e.targetId), "|" + e3);
    } else if !NoBar(Coalesce(e.beforeDigest)) {
      HeadAndTail(Coalesce(e.beforeDigest));
      MoveToPrevious(e.targetId, Head(Coalesce(e.beforeDigest)), Tail(Coalesce(e.beforeDigest)), "|" + e4);
    } else if !NoBar(Coalesce(e.afterDigest)) {
      HeadAndTail(Coalesce(e.afterDigest));
      MoveToPrevious(Coalesce(e.beforeDigest), Head(Coalesce(e.afterDigest)), Tail(Coalesce(e.afterDigest)), "|" + e5);
    } else {
      HeadAndTail(e.correlationId);
      MoveToPrevious(Coalesce(e.afterDigest), Head(e.correlationId), Tail(e.correlationId), "|" + show(e.createdAt));
    }
  }

  /** The payload determines the hashed columns exactly when the entry is not ambiguous. */
  lemma PayloadIsAmbiguousIff(show: Rendering, a: Entry)
    ensures (exists b :: b != a && Payload(show, b) == Payload(show, a)) <==> Ambiguous(show, a)
  {
    if Loose(a) {
      TwinDiffers(a);
      TwinHasSamePayload(show, a);
    } else if t :| t != a.createdAt && show(t) == show(a.createdAt) {
      assert Payload(show, a.(createdAt := t)) == Payload(show, a);
    } else {
      hide Payload, Loose;
      forall b | Payload(show, b) == Payload(show, a) ensures b == a { UnambiguousIsUnique(show, a, b); }
    }
  }

  /** Exactly which hashed columns the last hash fixes: those of row `i` can be rewritten behind a remembered
      last hash if and only if the row is ambiguous, short of a collision. */
  lemma HashedColumnsAreFixedIff(H: string -> string, show: Rendering, c: seq<Row>, i: nat)
    requires Digests(H) && Verified(H, show, c) && i < |c|
    ensures Ambiguous(show, c[i].entry) ==>
      exists d: seq<Row> :: PassesFor(H, show, c, d) && |d| == |c| && d[i].entry != c[i].entry
    ensures !Ambiguous(show, c[i].entry) ==>
      forall d: seq<Row> :: PassesFor(H, show, c, d) ==>
        (|d| == |c| && d[i].entry == c[i].entry) || CollisionIn(H, show, c, d)
  {
    PayloadIsAmbiguousIff(show, c[i].entry);
    hide Payload, Ambiguous, Verified, CollisionIn;
    if Ambiguous(show, c[i].entry) {
      var b :| b != c[i].entry && Payload(show, b) == Payload(show, c[i].entry);
      var d := c[i := c[i].(entry := b)];
      assert SameHistory(show, c, d);
      LastHashFixesHistoryIff(H, show, c, d);
      assert PassesFor(H, show, c, d);
    } else {
      forall d: seq<Row> | PassesFor(H, show, c, d)
        ensures (|d| == |c| && d[i].entry == c[i].entry) || CollisionIn(H, show, c, d)
      {
        LastHashFixesHistoryIff(H, show, c, d);
      }
    }
  }

  /** An example of the hashed text: the previous hash, then the fields in order, each behind a bar. */
  lemma PayloadExample(show: Rendering, at: int)
    ensures
      var e := Entry("A", "T", "I", Some("B"), Some("D"), "C", at);
      Payload(show, e) == "|A|T|I|B|D|C|" + show(at) && Hashed(show, Some("P"), e) == "P" + Payload(show, e)
  {
    var e := Entry("A", "T", "I", Some("B"), Some("D"), "C", at);
    assert Payload(show, e) == "|A|T|I|B|D|C|" + show(at);
    hide Payload;
  }

  /** For example, a bar can move from one field to the next. */
  lemma PayloadsCanCoincide(show: Rendering, at: int)
    ensures
      var a := Entry("x|", "y", "", None, None, "", at);
      var b := Entry("x", "|y", "", None, None, "", at);
      a != b && Payload(show, a) == Payload(show, b)
  {
    var a := Entry("x|", "y", "", None, None, "", at);
    var b := Entry("x", "|y", "", None, None, "", at);
    assert Payload(show, a) == "|x||y|||||" + show(at);
    assert Payload(show, b) == "|x||y|||||" + show(at);
  }
}
