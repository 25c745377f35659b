/** The specification of the versioned store for one configuration: an append-only log of
    which the newest entries can still be read. Version v is entry v - 1. */
module ConfigLog {

  /** Canonical text of a configuration: its JSON with sorted keys. */
  type Content = string

  type Log = seq<Content>

  predicate Digits(s: string) {
    forall i | 0 <= i < |s| :: '0' <= s[i] <= '9'
  }

  predicate IsDigits(s: string) {
    s != "" && Digits(s)
  }

  function Number(s: string): (n: nat)
    requires Digits(s)
  {
    if s == "" then 0
    else
      var front, last := s[..|s| - 1], s[|s| - 1];
      10 * Number(front) + (last as int - '0' as int)
  }

  function TenTo(n: nat): nat {
    if n == 0 then 1 else 10 * TenTo(n - 1)
  }

  lemma AppendDigit(s: string, d: char)
    requires Digits(s) && '0' <= d <= '9'
    ensures Digits(s + [d]) && Number(s + [d]) == 10 * Number(s) + (d as int - '0' as int)
  {
    assert (s + [d])[..|s|] == s;
  }

  lemma ShiftSum(n: nat, t: nat, m: nat)
    ensures 10 * (n * t + m) == n * (10 * t) + 10 * m
  {
  }

  /** A number is read in base ten, most significant digit first. */
  lemma {:induction false} NumberIsDecimal(a: string, b: string)
    requires Digits(a) && Digits(b)
    ensures Digits(a + b) && Number(a + b) == Number(a) * TenTo(|b|) + Number(b)
    ensures |a| == 1 ==> Number(a) == a[0] as int - '0' as int
    decreases |b|
  {
    if |a| == 1 { assert a[..0] == ""; }
    if b == "" {
      assert a + b == a;
    } else {
      var front, d := b[..|b| - 1], b[|b| - 1];
      assert a + b == a + front + [d] && b == front + [d];
      NumberIsDecimal(a, front);
      AppendDigit(a + front, d);
      AppendDigit(front, d);
      ShiftSum(Number(a), TenTo(|front|), Number(front));
    }
  }

  /** Whether a version token lets a write through to a log that exists: no token, the
      current version number, or anything else that equals the current etag. */
  predicate Accepts(log: Log, hash: Content -> string, token: string)
    requires log != []
  {
    if token == "" then true
    else if IsDigits(token) then Number(token) == |log|
    else token == hash(log[|log| - 1])
  }

  datatype Op = Write(token: string, content: Content) | Rollback(target: int)

  /** How many of the newest entries are readable when `kept` are retained. */
  function Readable(log: Log, kept: nat): nat {
    if |log| < kept then |log| else kept
  }

  predicate Restorable(log: Log, kept: nat, target: int) {
    |log| - Readable(log, kept) < target <= |log|
  }

  predicate Succeeds(log: Log, kept: nat, hash: Content -> string, op: Op) {
    match op
    case Write(token, _) => log == [] || Accepts(log, hash, token)
    case Rollback(target) => Restorable(log, kept, target)
  }

  /** A successful operation appends one entry; a refused one changes nothing. */
  function After(log: Log, kept: nat, hash: Content -> string, op: Op): Log {
    if !Succeeds(log, kept, hash, op) then log
    else match op
      case Write(_, content) => log + [content]
      case Rollback(target) => log + [log[target - 1]]
  }

  function Run(log: Log, kept: nat, hash: Content -> string, ops: seq<Op>): Log {
    if ops == [] then log
    else After(Run(log, kept, hash, ops[..|ops| - 1]), kept, hash, ops[|ops| - 1])
  }

  /** The log as operation `i` of a serial run finds it. */
  function Before(log: Log, kept: nat, hash: Content -> string, ops: seq<Op>, i: nat): Log
    requires i <= |ops|
  {
    Run(log, kept, hash, ops[..i])
  }

  lemma {:induction false} LogsOnlyGrow(log: Log, kept: nat, hash: Content -> string, ops: seq<Op>, i: nat, j: nat)
    requires i <= j <= |ops|
    ensures Before(log, kept, hash, ops, i) <= Before(log, kept, hash, ops, j)
    decreases j - i
  {
    if i < j {
      LogsOnlyGrow(log, kept, hash, ops, i, j - 1);
      assert ops[..j][..j - 1] == ops[..j - 1];
    }
  }

  lemma SuccessAppends(log: Log, kept: nat, hash: Content -> string, ops: seq<Op>, i: nat)
    requires i < |ops| && Succeeds(Before(log, kept, hash, ops, i), kept, hash, ops[i])
    ensures |Before(log, kept, hash, ops, i + 1)| == |Before(log, kept, hash, ops, i)| + 1
  {
    assert ops[..i + 1][..i] == ops[..i];
  }

  /** A writer that holds the etag of the entry it found, at whatever time, gets through exactly
      when the entry that is current by then has the same etag. */
  lemma HeldEtagDecides(log: Log, kept: nat, hash: Content -> string, ops: seq<Op>, i: nat, j: nat)
    requires i <= j < |ops| && ops[j].Write? && ops[j].token != "" && !IsDigits(ops[j].token)
    requires var found := Before(log, kept, hash, ops, i); found != [] && ops[j].token == hash(found[|found| - 1])
    ensures var current := Before(log, kept, hash, ops, j);
      current != [] && Before(log, kept, hash, ops, j + 1) ==
        if hash(current[|current| - 1]) == ops[j].token then current + [ops[j].content] else current
  {
    LogsOnlyGrow(log, kept, hash, ops, i, j);
    assert ops[..j + 1][..j] == ops[..j];
  }

  predicate HoldsVersion(op: Op, v: nat) {
    op.Write? && IsDigits(op.token) && Number(op.token) == v
  }

  /** Two writers holding the same numeric token both succeed exactly when the first of
      them created the configuration, whose token is then not looked at, and the second
      wrote to version v. */
  lemma SameVersionTwice(log: Log, kept: nat, hash: Content -> string, ops: seq<Op>, i: nat, j: nat, v: nat)
    requires i < j < |ops| && HoldsVersion(ops[i], v) && HoldsVersion(ops[j], v)
    ensures var found, later := Before(log, kept, hash, ops, i), Before(log, kept, hash, ops, j);
      Succeeds(found, kept, hash, ops[i]) && Succeeds(later, kept, hash, ops[j]) <==>
      found == [] && |later| == v
  {
    var found, later := Before(log, kept, hash, ops, i), Before(log, kept, hash, ops, j);
    if Succeeds(found, kept, hash, ops[i]) {
      SuccessAppends(log, kept, hash, ops, i);
      LogsOnlyGrow(log, kept, hash, ops, i + 1, j);
    }
  }

  /** So among writers to an existing configuration at most one with a given number succeeds. */
  lemma AtMostOneWriterPerVersion(log: Log, kept: nat, hash: Content -> string, ops: seq<Op>, i: nat, j: nat, v: nat)
    requires log != [] && i < j < |ops| && HoldsVersion(ops[i], v) && HoldsVersion(ops[j], v)
    ensures !(Succeeds(Before(log, kept, hash, ops, i), kept, hash, ops[i]) &&
              Succeeds(Before(log, kept, hash, ops, j), kept, hash, ops[j]))
  {
    SameVersionTwice(log, kept, hash, ops, i, j, v);
    assert ops[..0] == [] && Run(log, kept, hash, []) == log;
    LogsOnlyGrow(log, kept, hash, ops, 0, i);
  }

  /** On a configuration that does not exist yet, a stale number can win twice. */
  lemma CreationIgnoresToken(kept: nat, hash: Content -> string, a: Content, b: Content)
    ensures var ops := [Write("1", a), Write("1", b)];
      HoldsVersion(ops[0], 1) && HoldsVersion(ops[1], 1) &&
      Run([], kept, hash, ops) == [a, b]
  {
    var ops := [Write("1", a), Write("1", b)];
    assert "1"[..0] == "" && Number("1") == 1 by { assert Number("1") == 10 * Number("1"[..0]) + 1; }
    assert ops[..1] == [Write("1", a)] && ops[..1][..0] == [];
    assert Run([], kept, hash, []) == [];
    assert Run([], kept, hash, ops[..1]) == [a];
  }

  /** Hence a rollback revives an old etag: a writer that read A is let through after
      A was overwritten by B and B rolled back. */
  lemma RollbackRevivesEtag(log: Log, kept: nat, hash: Content -> string, b: Content, c: Content)
    requires log != [] && kept >= 2 && hash(log[|log| - 1]) != "" && !IsDigits(hash(log[|log| - 1]))
    ensures var a := log[|log| - 1];
      var ops := [Write("", b), Rollback(|log|), Write(hash(a), c)];
      Run(log, kept, hash, ops) == log + [b, a, c]
  {
    var a := log[|log| - 1];
    var ops := [Write("", b), Rollback(|log|), Write(hash(a), c)];
    assert ops[..2][..1] == [Write("", b)] && ops[..1][..0] == [];
    assert Run(log, kept, hash, []) == log;
    assert Run(log, kept, hash, ops[..1]) == log + [b];
    assert Run(log, kept, hash, ops[..2]) == log + [b] + [a];
  }

  /** The current etag is always accepted exactly when it cannot be taken for a version
      number, or happens to spell the current one. */
  lemma CurrentEtagAccepted(log: Log, hash: Content -> string)
    requires log != []
    ensures var etag := hash(log[|log| - 1]);
      Accepts(log, hash, etag) <==> !IsDigits(etag) || Number(etag) == |log|
  {
  }
}
