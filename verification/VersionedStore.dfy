/** `VersionedConfigService` over its snapshot table, refining `ConfigLog`.

    Calls are serialised. The table is a set of rows under generated primary keys with no
    uniqueness constraint on versions. Whether a session's queries see its own pending
    insert is the session factory's `autoflush`, which the repository turns off. */
module VersionedStore {
  import opened Commons
  import opened ConfigLog

  datatype Key = Key(configType: string, configId: string)

  datatype Row = Row(key: Key, version: int, etag: string, content: Content)

  type Table = map<nat, Row>

  datatype UpdateResult =
    | Updated(etag: string)
    | Conflict(currentVersion: int, currentEtag: string, current: Content, provided: string)

  datatype RollbackResult = RolledBack(etag: string) | VersionNotFound(target: int)

  function IdsOf(t: Table, key: Key): set<nat> {
    set id | id in t && t[id].key == key
  }

  predicate HasVersion(t: Table, ids: set<nat>, v: int) {
    exists id <- ids :: id in t && t[id].version == v
  }

  /** Ids whose versions are exactly lo + 1 .. hi, once each. */
  ghost predicate Spans(t: Table, ids: set<nat>, lo: int, hi: int) {
    && (forall id <- ids :: id in t && lo < t[id].version <= hi)
    && (forall i, j | i in ids && j in ids && t[i].version == t[j].version :: i == j)
    && (forall v | lo < v <= hi :: HasVersion(t, ids, v))
  }

  ghost predicate Matches(r: Row, log: Log, hash: Content -> string) {
    1 <= r.version <= |log| && r.content == log[r.version - 1] && r.etag == hash(r.content)
  }

  /** The rows of `key` are versions lo + 1 .. |log| of the log, once each. */
  ghost predicate Window(t: Table, key: Key, log: Log, lo: int, hash: Content -> string) {
    Spans(t, IdsOf(t, key), lo, |log|) && forall id <- IdsOf(t, key) :: Matches(t[id], log, hash)
  }

  lemma {:induction false} SpanSize(t: Table, ids: set<nat>, lo: int, hi: int)
    requires lo <= hi && Spans(t, ids, lo, hi)
    ensures |ids| == hi - lo
    decreases hi - lo
  {
    if lo < hi {
      assert HasVersion(t, ids, hi);
      var top :| top in ids && t[top].version == hi;
      DropNewest(t, ids, top, lo, hi);
      SpanSize(t, ids - {top}, lo, hi - 1);
    } else {
      assert ids == {};
    }
  }

  /** The rows `order_by(version).limit(n)` selects: those with fewer than n older ones. */
  function Oldest(t: Table, ids: set<nat>, n: int): set<nat>
    requires forall id <- ids :: id in t
  {
    set id | id in ids && |Older(t, ids, t[id].version)| < n
  }

  function Older(t: Table, ids: set<nat>, version: int): set<nat>
    requires forall id <- ids :: id in t
  {
    set id | id in ids && t[id].version < version
  }

  lemma OldestOfSpan(t: Table, ids: set<nat>, lo: int, hi: int, n: nat)
    requires lo <= hi && Spans(t, ids, lo, hi)
    ensures forall id :: id in Oldest(t, ids, n) <==> id in ids && t[id].version <= lo + n
  {
    forall id | id in ids ensures |Older(t, ids, t[id].version)| == t[id].version - 1 - lo {
      var v := t[id].version;
      var older := Older(t, ids, v);
      forall u | lo < u <= v - 1 ensures HasVersion(t, older, u) {
        assert HasVersion(t, ids, u);
        var i :| i in ids && t[i].version == u;
        assert i in older;
      }
      SpanSize(t, older, lo, v - 1);
    }
  }

  /** How many snapshots survive each write. */
  function Kept(maxSnapshots: int, autoflush: bool): nat {
    Max0(maxSnapshots) + if autoflush then 0 else 1
  }

  /** Versions up to this one are gone. */
  function Floor(log: Log, kept: nat): int {
    |log| - Readable(log, kept)
  }

  /** The stored snapshots of each configuration are the newest ones of its log. */
  ghost predicate AllWindows(t: Table, logs: map<Key, Log>, kept: nat, hash: Content -> string) {
    forall key :: Window(t, key, Get(logs, key, []), Floor(Get(logs, key, []), kept), hash)
  }

  /** Rows of other configurations are untouched. */
  ghost predicate SameElsewhere(t: Table, r: Table, key: Key) {
    && (forall id | id in t && t[id].key != key :: id in r && r[id] == t[id])
    && (forall id | id in r && r[id].key != key :: id in t && r[id] == t[id])
  }

  /** The newest entries of the log, newest first. */
  ghost predicate Lists(history: seq<Row>, key: Key, log: Log, hash: Content -> string) {
    forall i | 0 <= i < |history| ::
      history[i].key == key && history[i].version == |log| - i && Matches(history[i], log, hash)
  }

  class VersionedConfigService {
    const maxSnapshots: int
    const autoflush: bool
    const hash: Content -> string
    var table: Table
    var nextId: nat
    /** Every version ever written. */
    ghost var logs: map<Key, Log>

    ghost function LogOf(key: Key): Log
      reads this
    {
      Get(logs, key, [])
    }

    function Keeps(): nat {
      Kept(maxSnapshots, autoflush)
    }

    ghost predicate Valid()
      reads this
    {
      && Keeps() >= 1
      && (forall id <- table :: id < nextId)
      && AllWindows(table, logs, Keeps(), hash)
    }

    constructor (maxSnapshots: int, autoflush: bool, hash: Content -> string)
      requires Kept(maxSnapshots, autoflush) >= 1
      ensures Valid() && logs == map[]
      ensures this.maxSnapshots == maxSnapshots && this.autoflush == autoflush && this.hash == hash
    {
      this.maxSnapshots, this.autoflush, this.hash := maxSnapshots, autoflush, hash;
      table, nextId, logs := map[], 0, map[];
    }

    /** `get_config`: the row with the highest version. */
    method GetConfig(key: Key) returns (r: Option<Row>)
      requires Valid()
      ensures r == None <==> LogOf(key) == []
      ensures r.Some? ==> r.value.key == key && r.value.version == |LogOf(key)| && Matches(r.value, LogOf(key), hash)
    {
      var ids := IdsOf(table, key);
      ghost var n := |LogOf(key)|;
      if n > 0 { assert HasVersion(table, ids, n); }
      if ids == {} { return None; }
      var id := NewestOf(ids, Floor(LogOf(key), Keeps()), n);
      return Some(table[id]);
    }

    /** `_apply_retention_policy`: delete the oldest visible rows beyond the maximum. */
    method ApplyRetention(key: Key, ghost log: Log, ghost lo: nat)
      requires lo <= |log| && Window(table, key, log, lo, hash)
      modifies this`table
      ensures Window(table, key, log, Max(lo, |log| - Max0(maxSnapshots)), hash)
      ensures SameElsewhere(old(table), table, key)
      ensures forall id | id in table :: id in old(table)
    {
      var ids := IdsOf(table, key);
      var count := |ids|;
      SpanSize(table, ids, lo, |log|);
      if count > maxSnapshots {
        var deleteCount := count - maxSnapshots;
        OldestOfSpan(table, ids, lo, |log|, deleteCount);
        ghost var before := table;
        table := table - Oldest(table, ids, deleteCount);
        RetentionKeepsNewest(before, table, key, log, lo, Min(lo + deleteCount, |log|), hash);
      }
    }

    /** The pending row reaches the table, under a fresh primary key. */
    method Insert(row: Row, ghost log: Log, ghost lo: nat)
      requires lo <= |log| && Window(table, row.key, log, lo, hash)
      requires row.version == |log| + 1 && row.etag == hash(row.content)
      requires forall id <- table :: id < nextId
      modifies this`table, this`nextId
      ensures Window(table, row.key, log + [row.content], lo, hash)
      ensures SameElsewhere(old(table), table, row.key)
      ensures forall id <- table :: id < nextId
    {
      ghost var before := table;
      table := table[nextId := row];
      InsertExtends(before, nextId, row, log, lo, hash);
      nextId := nextId + 1;
    }

    /** Add the row and apply the retention policy; the policy's queries see the new row
        only when the session flushes it first. */
    method AddAndRetain(row: Row, ghost log: Log, ghost lo: nat)
      requires lo <= |log| && Window(table, row.key, log, lo, hash)
      requires row.version == |log| + 1 && row.etag == hash(row.content)
      requires forall id <- table :: id < nextId
      modifies this`table, this`nextId
      ensures Window(table, row.key, log + [row.content], Max(lo, |log| + 1 - Keeps()), hash)
      ensures SameElsewhere(old(table), table, row.key)
      ensures forall id <- table :: id < nextId
    {
      if autoflush {
        Insert(row, log, lo);
        ApplyRetention(row.key, log + [row.content], lo);
      } else {
        ApplyRetention(row.key, log, lo);
        Insert(row, log, Max(lo, |log| - Max0(maxSnapshots)));
      }
    }

    /** A write of `content` as the next version of `key`, whatever asked for it. */
    twostate predicate Wrote(key: Key, content: Content)
      reads this
    {
      LogOf(key) == old(LogOf(key)) + [content] && forall k | k != key :: LogOf(k) == old(LogOf(k))
    }

    method Append(current: Option<Row>, key: Key, content: Content) returns (etag: string)
      requires Valid() && (current == None <==> LogOf(key) == [])
      requires current.Some? ==> current.value.version == |LogOf(key)|
      modifies this
      ensures Valid() && Wrote(key, content) && etag == hash(content)
    {
      ghost var log := LogOf(key);
      ghost var lo := Floor(log, Keeps());
      etag := hash(content);
      if current == None {
        Insert(Row(key, 1, etag, content), log, lo);
      } else {
        AddAndRetain(Row(key, current.value.version + 1, etag, content), log, lo);
      }
      AppendKeepsWindows(old(table), table, logs, key, content, Keeps(), hash);
      logs := logs[key := log + [content]];
    }

    /** `update_config`: decided as the log decides it; a conflict changes nothing and
        reports the current version. */
    method UpdateConfig(key: Key, content: Content, token: string) returns (r: UpdateResult)
      requires Valid()
      modifies this
      ensures Valid()
      ensures r.Updated? <==> Succeeds(old(LogOf(key)), Keeps(), hash, Write(token, content))
      ensures old(LogOf(key)) == [] || token == "" ==> r.Updated?
      ensures old(LogOf(key)) != [] && IsDigits(token) ==> (r.Updated? <==> Number(token) == |old(LogOf(key))|)
      ensures old(LogOf(key)) != [] && token != "" && !IsDigits(token) ==>
        (r.Updated? <==> token == hash(old(LogOf(key))[|old(LogOf(key))| - 1]))
      ensures r.Updated? ==> Wrote(key, content) && r.etag == hash(content)
      ensures r.Conflict? ==> table == old(table) && logs == old(logs) && LogOf(key) != []
      ensures r.Conflict? ==>
        r == Conflict(|LogOf(key)|, hash(LogOf(key)[|LogOf(key)| - 1]), LogOf(key)[|LogOf(key)| - 1], token)
    {
      var current := GetConfig(key);
      if current.Some? && token != "" {
        var row := current.value;
        if IsDigits(token) {
          if Number(token) != row.version { return Conflict(row.version, row.etag, row.content, token); }
        } else if token != row.etag {
          return Conflict(row.version, row.etag, row.content, token);
        }
      }
      var etag := Append(current, key, content);
      return Updated(etag);
    }

    /** `rollback_config`: succeeds exactly when the target is still stored. */
    method RollbackConfig(key: Key, target: int) returns (r: RollbackResult)
      requires Valid()
      modifies this
      ensures Valid()
      ensures r.RolledBack? <==> Succeeds(old(LogOf(key)), Keeps(), hash, Rollback(target))
      ensures r.RolledBack? <==>
        1 <= target <= |old(LogOf(key))| < target + Max0(maxSnapshots) + (if autoflush then 0 else 1)
      ensures r.RolledBack? ==> Wrote(key, old(LogOf(key))[target - 1]) && r.etag == hash(old(LogOf(key))[target - 1])
      ensures !r.RolledBack? ==> r == VersionNotFound(target) && table == old(table) && logs == old(logs)
    {
      var ids := set id | id in IdsOf(table, key) && table[id].version == target;
      if Succeeds(LogOf(key), Keeps(), hash, Rollback(target)) {
        assert HasVersion(table, IdsOf(table, key), target);
        ghost var stored :| stored in IdsOf(table, key) && table[stored].version == target;
        assert stored in ids;
      }
      if ids == {} { return VersionNotFound(target); }
      var id :| id in ids;
      var content := table[id].content;
      var current := GetConfig(key);
      var etag := Append(current, key, content);
      return RolledBack(etag);
    }

    /** `get_config_history`: the newest snapshots, newest first. */
    method GetConfigHistory(key: Key, limit: nat) returns (history: seq<Row>)
      requires Valid()
      ensures |history| == Min(limit, Readable(LogOf(key), Keeps()))
      ensures Lists(history, key, LogOf(key), hash)
    {
      history := [];
      var rest := IdsOf(table, key);
      ghost var log := LogOf(key);
      ghost var lo := Floor(log, Keeps());
      while |history| < limit && rest != {}
        invariant rest <= IdsOf(table, key) && |history| <= limit && |history| <= |log| - lo
        invariant Spans(table, rest, lo, |log| - |history|) && Lists(history, key, log, hash)
        decreases rest
      {
        var id := NewestOf(rest, lo, |log| - |history|);
        DropNewest(table, rest, id, lo, |log| - |history|);
        assert id in IdsOf(table, key);
        ListsGrow(history, table[id], key, log, hash);
        history, rest := history + [table[id]], rest - {id};
      }
      SpanSize(table, rest, lo, |log| - |history|);
    }

    method NewestOf(ids: set<nat>, ghost lo: int, ghost hi: int) returns (id: nat)
      requires ids != {} && Spans(table, ids, lo, hi)
      ensures id in ids && table[id].version == hi
    {
      ghost var any :| any in ids;
      assert HasVersion(table, ids, hi);
      ghost var newest :| newest in ids && table[newest].version == hi;
      id :| id in ids && forall j <- ids :: table[j].version <= table[id].version;
      assert table[newest].version <= table[id].version;
    }
  }

  /** How many snapshots are stored, and when the documented maximum is respected: with
      the pending row invisible to the policy, one more than the maximum accumulates. */
  lemma StoredCount(t: Table, logs: map<Key, Log>, key: Key, maxSnapshots: nat, autoflush: bool,
      hash: Content -> string)
    requires AllWindows(t, logs, Kept(maxSnapshots, autoflush), hash)
    ensures |IdsOf(t, key)| == Readable(Get(logs, key, []), Kept(maxSnapshots, autoflush))
    ensures |IdsOf(t, key)| <= maxSnapshots <==> autoflush || |Get(logs, key, [])| <= maxSnapshots
  {
    var log := Get(logs, key, []);
    SpanSize(t, IdsOf(t, key), Floor(log, Kept(maxSnapshots, autoflush)), |log|);
  }

  /** Two writes under a maximum of one, in the repository's sessions, leave two snapshots. */
  method OneTooMany(hash: Content -> string, key: Key, a: Content, b: Content) returns (history: seq<Row>)
    ensures |history| == 2 && history[0].content == b && history[1].content == a
  {
    var service := new VersionedConfigService(1, false, hash);
    var first := service.UpdateConfig(key, a, "");
    var second := service.UpdateConfig(key, b, "");
    history := service.GetConfigHistory(key, 10);
  }

  lemma DropNewest(t: Table, ids: set<nat>, top: nat, lo: int, hi: int)
    requires Spans(t, ids, lo, hi) && top in ids && t[top].version == hi
    ensures Spans(t, ids - {top}, lo, hi - 1)
  {
    var rest := ids - {top};
    forall v | lo < v <= hi - 1 ensures HasVersion(t, rest, v) {
      assert HasVersion(t, ids, v);
      var id :| id in ids && t[id].version == v;
      assert id in rest;
    }
  }

  lemma ListsGrow(history: seq<Row>, row: Row, key: Key, log: Log, hash: Content -> string)
    requires Lists(history, key, log, hash) && row.key == key
    requires row.version == |log| - |history| && Matches(row, log, hash)
    ensures Lists(history + [row], key, log, hash)
  {
  }

  lemma InsertExtends(t: Table, id: nat, row: Row, log: Log, lo: nat, hash: Content -> string)
    requires id !in t && lo <= |log| && Window(t, row.key, log, lo, hash)
    requires row.version == |log| + 1 && row.etag == hash(row.content)
    ensures Window(t[id := row], row.key, log + [row.content], lo, hash)
  {
    var r, log' := t[id := row], log + [row.content];
    assert IdsOf(r, row.key) == IdsOf(t, row.key) + {id};
    forall v | lo < v <= |log'| ensures HasVersion(r, IdsOf(r, row.key), v) {
      if v <= |log| {
        assert HasVersion(t, IdsOf(t, row.key), v);
        var i :| i in IdsOf(t, row.key) && t[i].version == v;
        assert i in IdsOf(r, row.key) && r[i].version == v;
      } else {
        assert id in IdsOf(r, row.key) && r[id].version == v;
      }
    }
  }

  lemma WindowFrame(t: Table, r: Table, key: Key, log: Log, lo: int, hash: Content -> string)
    requires Window(t, key, log, lo, hash)
    requires forall id | id in t && t[id].key == key :: id in r && r[id] == t[id]
    requires forall id | id in r && r[id].key == key :: id in t && r[id] == t[id]
    ensures Window(r, key, log, lo, hash)
  {
    assert IdsOf(r, key) == IdsOf(t, key);
    forall v | lo < v <= |log| ensures HasVersion(r, IdsOf(r, key), v) {
      assert HasVersion(t, IdsOf(t, key), v);
    }
  }

  lemma AppendKeepsWindows(t: Table, r: Table, logs: map<Key, Log>, key: Key, content: Content, kept: nat,
      hash: Content -> string)
    requires AllWindows(t, logs, kept, hash) && SameElsewhere(t, r, key)
    requires var log := Get(logs, key, []) + [content]; Window(r, key, log, Floor(log, kept), hash)
    ensures AllWindows(r, logs[key := Get(logs, key, []) + [content]], kept, hash)
  {
    var logs' := logs[key := Get(logs, key, []) + [content]];
    forall k ensures Window(r, k, Get(logs', k, []), Floor(Get(logs', k, []), kept), hash) {
      if k != key {
        assert Get(logs', k, []) == Get(logs, k, []);
        WindowFrame(t, r, k, Get(logs, k, []), Floor(Get(logs, k, []), kept), hash);
      }
    }
  }

  function Min(a: int, b: int): int {
    if a < b then a else b
  }

  function Max(a: int, b: int): int {
    if a < b then b else a
  }

  lemma RetentionKeepsNewest(t: Table, r: Table, key: Key, log: Log, lo: int, cut: int, hash: Content -> string)
    requires Window(t, key, log, lo, hash) && lo <= cut <= |log|
    requires forall id :: id in r <==> id in t && (t[id].key == key ==> t[id].version > cut)
    requires forall id | id in r :: r[id] == t[id]
    ensures Window(r, key, log, cut, hash)
  {
    forall v | cut < v <= |log| ensures HasVersion(r, IdsOf(r, key), v) {
      assert HasVersion(t, IdsOf(t, key), v);
      var id :| id in IdsOf(t, key) && t[id].version == v;
      assert id in IdsOf(r, key);
    }
    assert forall id | id in IdsOf(r, key) :: id in IdsOf(t, key);
  }
}
