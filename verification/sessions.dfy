/**
 * The server's session tables: which socket handles are connected, which
 * accounts are logged in on which sessions, the per-account cache of
 * notifications for retransmission, and the last sequence id each
 * account was sent successfully.
 */
module Sessions {
  import opened Wrappers
  import opened AcctKeys

  /** A cached package: its message sequence id and command code. */
  datatype Cached = Cached(seqId: nat, cmd: int)

  /**
   * The manager's tables: the connected session handles, the sessions of
   * each logged-in account, the accounts each session has logged in,
   * the cached packages of each account in sending order, and each
   * account's last acknowledged sequence id.
   */
  datatype Manager = Manager(
    sessions: set<nat>,
    accts: map<AcctKey, set<nat>>,
    logins: map<nat, set<AcctKey>>,
    cache: map<AcctKey, seq<Cached>>,
    acked: map<AcctKey, nat>)

  /** Sequence ids strictly increase along each account's cache. */
  predicate Ascending(c: seq<Cached>)
  {
    forall i, j :: 0 <= i < j < |c| ==> c[i].seqId < c[j].seqId
  }

  /**
   * The tables agree: every session an account maps is connected and
   * lists the account among its logins, no account maps an empty set,
   * and every cache is in ascending sequence order.
   */
  predicate Consistent(m: Manager)
  {
    (forall k, h :: k in m.accts && h in m.accts[k] ==> h in m.sessions && h in m.logins && k in m.logins[h])
    && (forall k :: k in m.accts ==> m.accts[k] != {})
    && (forall k :: k in m.cache ==> Ascending(m.cache[k]))
  }

  function EmptyManager(): (m: Manager)
    ensures Consistent(m) && m.accts == map[]
  {
    Manager({}, map[], map[], map[], map[])
  }

  /** An account is logged in while some session maps it. */
  predicate IsLogin(m: Manager, k: AcctKey)
  {
    k in m.accts
  }

  /** Adds a connected session; true when the handle was new. */
  function AddSession(m: Manager, h: nat): (r: (Manager, bool))
    ensures r.1 <==> h !in m.sessions
    ensures r.0.sessions == m.sessions + {h} && r.0.accts == m.accts
    ensures Consistent(m) ==> Consistent(r.0)
  {
    (m.(sessions := m.sessions + {h}), h !in m.sessions)
  }

  /**
   * Logs account k in on session h: the session is recorded (kept when
   * already there), it lists k, and k maps h besides its other sessions.
   * Login always succeeds.
   */
  function Login(m: Manager, k: AcctKey, h: nat): (r: (Manager, bool))
    ensures r.1
    ensures h in r.0.sessions && IsLogin(r.0, k) && h in r.0.accts[k]
    ensures r.0.accts[k] == (if k in m.accts then m.accts[k] else {}) + {h}
    ensures forall k' :: k' != k ==> (k' in r.0.accts <==> k' in m.accts) && (k' in m.accts ==> r.0.accts[k'] == m.accts[k'])
    ensures r.0.cache == m.cache && r.0.acked == m.acked
  {
    var keys := if h in m.logins then m.logins[h] else {};
    var hs := if k in m.accts then m.accts[k] else {};
    (m.(sessions := m.sessions + {h}, logins := m.logins[h := keys + {k}], accts := m.accts[k := hs + {h}]), true)
  }

  /** Logging in keeps the tables in agreement. */
  lemma LoginKeepsConsistent(m: Manager, k: AcctKey, h: nat)
    requires Consistent(m)
    ensures Consistent(Login(m, k, h).0)
  {
  }

  /**
   * Removes session h: each account it logged in no longer maps it, and
   * an account left with no session is dropped; then the handle leaves
   * the session table, and its logins go with it.
   */
  function Remove(m: Manager, h: nat): (r: (Manager, bool))
    ensures r.1
    ensures h !in r.0.sessions && h !in r.0.logins
    ensures Consistent(m) ==> forall k :: k in r.0.accts ==> h !in r.0.accts[k]
    ensures forall k :: k in r.0.accts ==> r.0.accts[k] != {} || (k in m.accts && m.accts[k] == {})
    ensures forall k :: k in m.accts && h !in m.accts[k] && m.accts[k] != {} ==> k in r.0.accts && r.0.accts[k] == m.accts[k]
    ensures Consistent(m) ==>
              forall k :: k in m.accts && m.accts[k] - {h} != {} ==> k in r.0.accts && r.0.accts[k] == m.accts[k] - {h}
    ensures forall k :: k in r.0.accts ==> k in m.accts
  {
    var keys := if h in m.logins then m.logins[h] else {};
    var accts := map k | k in m.accts && !(k in keys && m.accts[k] - {h} == {}) ::
                   if k in keys then m.accts[k] - {h} else m.accts[k];
    assert forall k :: k in accts ==> accts[k] != {} || m.accts[k] == {};
    (m.(sessions := m.sessions - {h}, logins := m.logins - {h}, accts := accts), true)
  }

  /** Removing a session keeps the tables in agreement. */
  lemma RemoveKeepsConsistent(m: Manager, h: nat)
    requires Consistent(m)
    ensures Consistent(Remove(m, h).0)
  {
    var r := Remove(m, h).0;
    forall k, h' | k in r.accts && h' in r.accts[k]
      ensures h' in r.sessions && h' in r.logins && k in r.logins[h']
    {
      assert h' in m.accts[k];
    }
  }

  /** After a login on h and the removal of h, the account is still logged in exactly when it has another session. */
  lemma LoginThenRemove(m: Manager, k: AcctKey, h: nat)
    requires Consistent(m)
    ensures IsLogin(Remove(Login(m, k, h).0, h).0, k) <==> k in m.accts && m.accts[k] - {h} != {}
  {
    var m1 := Login(m, k, h).0;
    LoginKeepsConsistent(m, k, h);
    var r := Remove(m1, h).0;
    if k in m.accts && m.accts[k] - {h} != {} {
      assert m1.accts[k] - {h} == m.accts[k] - {h};
    } else {
      assert m1.accts[k] - {h} == {};
      assert k in m1.logins[h];
    }
  }

  // ---------------------------------------------------------------------
  // Sending and retransmission
  // ---------------------------------------------------------------------

  /**
   * Sends a package with sequence id seqId: it is appended to the
   * account's cache when it should be cached, and goes to the given
   * session (a response) or else to every session of the account (a
   * notification; none when the account is not logged in). The sequence
   * id comes from the message-id generator, so it exceeds every id
   * cached before.
   */
  function Send(m: Manager, session: Option<nat>, k: AcctKey, seqId: nat, cmd: int, shouldCache: bool)
    : (r: (Manager, set<nat>))
    requires k in m.cache ==> forall c :: c in m.cache[k] ==> c.seqId < seqId
    ensures session.Some? ==> r.1 == {session.value}
    ensures session.None? && k in m.accts ==> r.1 == m.accts[k]
    ensures session.None? && k !in m.accts ==> r.1 == {}
    ensures shouldCache ==> k in r.0.cache && r.0.cache[k] == (if k in m.cache then m.cache[k] else []) + [Cached(seqId, cmd)]
    ensures !shouldCache ==> r.0 == m
    ensures r.0.accts == m.accts && r.0.sessions == m.sessions && r.0.acked == m.acked
    ensures Consistent(m) ==> Consistent(r.0)
  {
    var m1 := if shouldCache then
                var c := if k in m.cache then m.cache[k] else [];
                m.(cache := m.cache[k := c + [Cached(seqId, cmd)]])
              else m;
    var to := if session.Some? then {session.value} else if k in m.accts then m.accts[k] else {};
    (m1, to)
  }

  /** A package was written to the socket: its sequence id becomes the account's last acknowledged one. */
  function SentOffset(m: Manager, k: AcctKey, seqId: nat): (r: Manager)
    ensures k in r.acked && r.acked[k] == seqId
    ensures forall k' :: k' != k ==> (k' in r.acked <==> k' in m.acked) && (k' in m.acked ==> r.acked[k'] == m.acked[k'])
    ensures r.(acked := m.acked) == m
  {
    m.(acked := m.acked[k := seqId])
  }

  /** The command codes the retransmission rule compares against. */
  datatype Codes = Codes(notifyOrder: int, notifyTrade: int, notifyAlgoInfo: int)

  /** A login's resend starting points per kind; 0 means "from the last acknowledged". */
  datatype ResendRequest = ResendRequest(orderSeq: nat, tradeSeq: nat, algoSeq: nat)

  /** The starting point of one kind: the request's own when positive, else the last acknowledged id (0 if none). */
  function Start(requested: nat, acked: map<AcctKey, nat>, k: AcctKey): (r: nat)
    ensures requested > 0 ==> r == requested
    ensures requested == 0 && k in acked ==> r == acked[k]
    ensures requested == 0 && k !in acked ==> r == 0
  {
    if requested > 0 then requested else if k in acked then acked[k] else 0
  }

  /**
   * Whether a cached package is sent again: an order notification from
   * the order start on, a trade notification from the trade start on, or
   * any command numbered from the algo execution info up, from the algo
   * start on.
   */
  predicate Resent(c: Cached, codes: Codes, order: nat, trade: nat, algo: nat)
  {
    (c.cmd == codes.notifyOrder && c.seqId >= order)
    || (c.cmd == codes.notifyTrade && c.seqId >= trade)
    || (c.cmd >= codes.notifyAlgoInfo && c.seqId >= algo)
  }

  /** The packages of a cache selected for resending, in cache order. */
  function Select(c: seq<Cached>, codes: Codes, order: nat, trade: nat, algo: nat): (r: seq<Cached>)
    ensures forall x :: x in r <==> x in c && Resent(x, codes, order, trade, algo)
    ensures Ascending(c) ==> Ascending(r)
    ensures |r| <= |c|
  {
    if c == [] then []
    else
      var rest := Select(c[1..], codes, order, trade, algo);
      assert forall x :: x in c <==> x == c[0] || x in c[1..];
      if Resent(c[0], codes, order, trade, algo) then
        AscendingCons(c, rest);
        [c[0]] + rest
      else rest
  }

  /** An ascending cache's head is below every package of a subsequence of its tail. */
  lemma AscendingCons(c: seq<Cached>, rest: seq<Cached>)
    requires |c| > 0
    requires forall x :: x in rest ==> x in c[1..]
    ensures Ascending(c) && Ascending(rest) ==> Ascending([c[0]] + rest)
  {
    forall j | 0 <= j < |rest| && Ascending(c)
      ensures c[0].seqId < rest[j].seqId
    {
      assert rest[j] in c[1..];
      var k :| 0 <= k < |c[1..]| && c[1..][k] == rest[j];
      assert c[k + 1] == rest[j];
    }
  }

  /**
   * The packages re-queued on a login that asks for retransmission: the
   * account's cached packages (in sequence order) that pass the rule,
   * each start defaulting to the account's last acknowledged id.
   */
  function ReSend(m: Manager, k: AcctKey, req: ResendRequest, codes: Codes): (r: seq<Cached>)
    ensures k !in m.cache ==> r == []
    ensures forall x :: x in r <==>
              k in m.cache && x in m.cache[k]
              && Resent(x, codes, Start(req.orderSeq, m.acked, k), Start(req.tradeSeq, m.acked, k), Start(req.algoSeq, m.acked, k))
    ensures Consistent(m) ==> Ascending(r)
  {
    if k !in m.cache then []
    else
      Select(m.cache[k], codes, Start(req.orderSeq, m.acked, k), Start(req.tradeSeq, m.acked, k), Start(req.algoSeq, m.acked, k))
  }

  /** With no explicit starts, the last acknowledged package is itself sent again when it is a resent kind. */
  lemma LastAckedResent(m: Manager, k: AcctKey, codes: Codes, x: Cached)
    requires k in m.cache && x in m.cache[k] && k in m.acked && x.seqId == m.acked[k]
    requires x.cmd == codes.notifyOrder || x.cmd == codes.notifyTrade || x.cmd >= codes.notifyAlgoInfo
    ensures x in ReSend(m, k, ResendRequest(0, 0, 0), codes)
  {
  }

  /** Nothing older than every start is resent: with all starts at s, resent packages have ids at least s. */
  lemma ReSendFromStart(m: Manager, k: AcctKey, codes: Codes, s: nat)
    requires s > 0
    ensures forall x :: x in ReSend(m, k, ResendRequest(s, s, s), codes) ==> x.seqId >= s
  {
  }
}
