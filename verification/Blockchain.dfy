/** The audit ledger: a chain of blocks linked by hashes. The hash is a parameter with
    outputs of fixed length; results about tampering hold unless two blocks at hand are a collision.
    Time stamps count whole seconds, as they are hashed. */
module Blockchain {
  import opened Prelude

  type Byte = b: int | 0 <= b < 256
  type Bytes = seq<Byte>

  /** An agent, identified by the 36 characters in which its id is displayed. */
  type AgentId = t: Bytes | |t| == 36 witness seq(36, i => 48)

  datatype ActionType = AgentCreated | AgentMoved | AgentInteracted | StateChanged | Custom(name: Bytes)

  datatype Transaction = Transaction(id: Bytes, agent: AgentId, action: ActionType, timestamp: int, data: Bytes)

  datatype Block = Block(
    index: int, timestamp: int, transactions: seq<Transaction>, previousHash: Bytes, hash: Bytes, nonce: int)

  /** Length of a hash in base64. */
  const HASH_LENGTH := 44

  /** The text "genesis". */
  const GENESIS_HASH: Bytes := [103, 101, 110, 101, 115, 105, 115]

  type Hash = h: Bytes | |h| == HASH_LENGTH witness seq(HASH_LENGTH, i => 48)

  /** The hash function, with its output already in base64. */
  type Hasher = Bytes -> Hash

  // ---------------------------------------------------------------------------------------
  // What is hashed

  const WORD: int := 0x1_0000_0000_0000_0000

  /** The last `k` bytes of `n`, most significant first. */
  function BigEndian(n: int, k: nat): (r: Bytes)
    ensures |r| == k
    decreases k
  {
    if k == 0 then [] else BigEndian(n / 256, k - 1) + [n % 256]
  }

  function Power256(k: nat): (p: int)
    ensures p > 0
  {
    if k == 0 then 1 else 256 * Power256(k - 1)
  }

  lemma {:induction false} BigEndianInjective(m: int, n: int, k: nat)
    requires 0 <= m < Power256(k) && 0 <= n < Power256(k)
    requires BigEndian(m, k) == BigEndian(n, k)
    ensures m == n
    decreases k
  {
    if k > 0 {
      var a, b := BigEndian(m, k), BigEndian(n, k);
      assert a[k - 1] == m % 256 && b[k - 1] == n % 256;
      assert a[..k - 1] == BigEndian(m / 256, k - 1) && b[..k - 1] == BigEndian(n / 256, k - 1);
      BigEndianInjective(m / 256, n / 256, k - 1);
    }
  }

  /** `to_be_bytes` of a 64-bit integer, signed or unsigned. */
  function Be64(n: int): (r: Bytes)
    ensures |r| == 8
  {
    BigEndian(n % WORD, 8)
  }

  lemma Be64Injective(m: int, n: int)
    requires Be64(m) == Be64(n)
    ensures m % WORD == n % WORD
  {
    assert Power256(2) == 0x1_0000;
    assert Power256(4) == 0x1_0000_0000;
    assert Power256(6) == 0x1_0000_0000_0000;
    assert Power256(8) == WORD;
    BigEndianInjective(m % WORD, n % WORD, 8);
  }

  /** The action is not part of what is hashed. */
  function TransactionBytes(t: Transaction): Bytes {
    t.id + t.agent + Be64(t.timestamp) + t.data
  }

  function PayloadBytes(ts: seq<Transaction>): Bytes {
    if ts == [] then [] else TransactionBytes(ts[0]) + PayloadBytes(ts[1..])
  }

  function HashedBytes(b: Block): Bytes {
    Be64(b.index) + Be64(b.timestamp) + b.previousHash + Be64(b.nonce) + PayloadBytes(b.transactions)
  }

  /** The stored hash is not among the bytes it is computed from. */
  lemma HashIsNotHashed(b: Block, h: Bytes)
    ensures HashedBytes(b.(hash := h)) == HashedBytes(b)
  {
  }

  predicate Links(chain: seq<Block>, i: nat, hash: Hasher)
    requires 0 < i < |chain|
  {
    chain[i].hash == hash(HashedBytes(chain[i])) && chain[i].previousHash == chain[i - 1].hash
  }

  ghost predicate ValidChain(chain: seq<Block>, hash: Hasher) {
    forall i :: 1 <= i < |chain| ==> Links(chain, i, hash)
  }

  // ---------------------------------------------------------------------------------------
  // Tamper evidence

  lemma BlockPieces(b: Block)
    ensures var h, n := HashedBytes(b), |b.previousHash|;
            && |h| >= n + 24
            && h[..8] == Be64(b.index) && h[8..16] == Be64(b.timestamp) && h[16..n + 16] == b.previousHash
            && h[n + 16..n + 24] == Be64(b.nonce) && h[n + 24..] == PayloadBytes(b.transactions)
  {
    hide Be64, PayloadBytes;
    var rest := PayloadBytes(b.transactions);
    assert HashedBytes(b) ==
      Be64(b.index) + (Be64(b.timestamp) + (b.previousHash + (Be64(b.nonce) + rest)));
  }

  /** Equal links and payload bytes, and equal numbers as far as 64 bits show. */
  predicate SameHeaderAndPayload(a: Block, b: Block) {
    && a.previousHash == b.previousHash && PayloadBytes(a.transactions) == PayloadBytes(b.transactions)
    && a.index % WORD == b.index % WORD && a.timestamp % WORD == b.timestamp % WORD && a.nonce % WORD == b.nonce % WORD
  }

  /** Equal hashed bytes give equal header fields and payload once the links have equal length. */
  lemma SplitHashedBytes(a: Block, b: Block)
    requires HashedBytes(a) == HashedBytes(b) && |a.previousHash| == |b.previousHash|
    ensures SameHeaderAndPayload(a, b)
  {
    hide HashedBytes, Be64, PayloadBytes;
    BlockPieces(a);
    BlockPieces(b);
    Be64Injective(a.index, b.index);
    Be64Injective(a.timestamp, b.timestamp);
    Be64Injective(a.nonce, b.nonce);
  }

  /** The two blocks exhibit a collision of the hash. */
  predicate Collide(a: Block, b: Block, hash: Hasher) {
    HashedBytes(a) != HashedBytes(b) && hash(HashedBytes(a)) == hash(HashedBytes(b))
  }

  ghost predicate CollideFrom(a: seq<Block>, b: seq<Block>, i: nat, hash: Hasher)
    requires |a| == |b|
  {
    exists k :: i <= k < |a| && Collide(a[k], b[k], hash)
  }

  /** Two accepted chains of equal length and equal tip hash hash the same bytes in every block
      after genesis, or some pair of their blocks is a collision of the hash. */
  lemma {:induction false} TamperEvidence(a: seq<Block>, b: seq<Block>, hash: Hasher, i: nat)
    requires ValidChain(a, hash) && ValidChain(b, hash)
    requires |a| == |b| > 1 && a[|a| - 1].hash == b[|b| - 1].hash
    requires 1 <= i < |a|
    ensures CollideFrom(a, b, i, hash) || (a[i].hash == b[i].hash && HashedBytes(a[i]) == HashedBytes(b[i]))
    decreases |a| - i
  {
    hide HashedBytes;
    assert Links(a, i, hash) && Links(b, i, hash);
    if i < |a| - 1 {
      TamperEvidence(a, b, hash, i + 1);
      if CollideFrom(a, b, i + 1, hash) { return; }
      assert Links(a, i + 1, hash) && Links(b, i + 1, hash);
      SplitHashedBytes(a[i + 1], b[i + 1]);
    }
    assert HashedBytes(a[i]) != HashedBytes(b[i]) ==> Collide(a[i], b[i], hash);
  }

  /** What equality of the hashed bytes pins down in each block. The first block after genesis
      needs the two genesis hashes to have equal length; `new` always stores the same one. */
  lemma TamperedFieldsShow(a: seq<Block>, b: seq<Block>, hash: Hasher, i: nat)
    requires ValidChain(a, hash) && ValidChain(b, hash)
    requires |a| == |b| > 1 && a[|a| - 1].hash == b[|b| - 1].hash
    requires |a[0].hash| == |b[0].hash| && 1 <= i < |a|
    ensures CollideFrom(a, b, i, hash) || (a[i - 1].hash == b[i - 1].hash && SameHeaderAndPayload(a[i], b[i]))
  {
    hide HashedBytes, CollideFrom;
    TamperEvidence(a, b, hash, i);
    assert Links(a, i, hash) && Links(b, i, hash);
    if i > 1 { assert Links(a, i - 1, hash) && Links(b, i - 1, hash); }
    if !CollideFrom(a, b, i, hash) { SplitHashedBytes(a[i], b[i]); }
  }

  /** Short of a collision, replacing the transactions of a mined block goes unnoticed exactly when
      the replacement has the same payload bytes. */
  lemma RewriteUnnoticed(chain: seq<Block>, i: nat, ts: seq<Transaction>, hash: Hasher)
    requires ValidChain(chain, hash) && 1 <= i < |chain|
    requires !Collide(chain[i].(transactions := ts), chain[i], hash)
    ensures ValidChain(chain[i := chain[i].(transactions := ts)], hash)
       <==> PayloadBytes(ts) == PayloadBytes(chain[i].transactions)
  {
    var forged := chain[i := chain[i].(transactions := ts)];
    assert Links(chain, i, hash);
    if PayloadBytes(ts) == PayloadBytes(chain[i].transactions) {
      forall k | 1 <= k < |forged| ensures Links(forged, k, hash) {
        assert Links(chain, k, hash);
      }
    } else if ValidChain(forged, hash) {
      assert Links(forged, i, hash);
      SplitHashedBytes(forged[i], chain[i]);
    }
  }

  /** Equal in all that is hashed of a transaction. */
  predicate SameButAction(t: Transaction, u: Transaction) {
    && t.id == u.id && t.agent == u.agent && t.data == u.data
    && t.timestamp % WORD == u.timestamp % WORD
  }

  predicate AllSameButAction(ts: seq<Transaction>, us: seq<Transaction>) {
    |ts| == |us| && forall k :: 0 <= k < |ts| ==> SameButAction(ts[k], us[k])
  }

  predicate SameLengths(ts: seq<Transaction>, us: seq<Transaction>) {
    |ts| == |us| && forall k :: 0 <= k < |ts| ==> |ts[k].id| == |us[k].id| && |ts[k].data| == |us[k].data|
  }

  lemma TransactionPieces(t: Transaction, rest: Bytes)
    ensures var h, n, d := TransactionBytes(t) + rest, |t.id|, |t.data|;
            && |h| >= n + 44 + d
            && h[..n] == t.id && h[n..n + 36] == t.agent && h[n + 36..n + 44] == Be64(t.timestamp)
            && h[n + 44..n + 44 + d] == t.data && h[n + 44 + d..] == rest
  {
    hide Be64;
    assert TransactionBytes(t) + rest == t.id + (t.agent + (Be64(t.timestamp) + (t.data + rest)));
  }

  lemma SplitTransaction(t: Transaction, u: Transaction, p: Bytes, q: Bytes)
    requires |t.id| == |u.id| && |t.data| == |u.data|
    requires TransactionBytes(t) + p == TransactionBytes(u) + q
    ensures SameButAction(t, u) && p == q
  {
    hide TransactionBytes, Be64;
    TransactionPieces(t, p);
    TransactionPieces(u, q);
    Be64Injective(t.timestamp, u.timestamp);
  }

  /** With field lengths fixed, the payload determines the transactions except for their actions. */
  lemma {:induction false} PayloadDetermines(ts: seq<Transaction>, us: seq<Transaction>)
    requires SameLengths(ts, us)
    ensures PayloadBytes(ts) == PayloadBytes(us) <==> AllSameButAction(ts, us)
  {
    if ts != [] {
      PayloadDetermines(ts[1..], us[1..]);
      if AllSameButAction(ts, us) {
        assert SameButAction(ts[0], us[0]);
        assert forall k :: 0 <= k < |ts| - 1 ==> SameButAction(ts[1..][k], us[1..][k]);
      }
      if PayloadBytes(ts) == PayloadBytes(us) {
        SplitTransaction(ts[0], us[0], PayloadBytes(ts[1..]), PayloadBytes(us[1..]));
        forall k | 0 <= k < |ts| ensures SameButAction(ts[k], us[k]) {
          if k > 0 { assert SameButAction(ts[1..][k - 1], us[1..][k - 1]); }
        }
      }
    }
  }

  lemma PayloadOfTwo(t: Transaction, u: Transaction, rest: seq<Transaction>)
    ensures PayloadBytes([t, u] + rest) == TransactionBytes(t) + TransactionBytes(u) + PayloadBytes(rest)
  {
    hide TransactionBytes;
    var all := [t, u] + rest;
    assert all[1..] == [u] + rest && all[1..][1..] == rest;
    var x, y, z := TransactionBytes(t), TransactionBytes(u), PayloadBytes(rest);
    assert x + y + z == x + (y + z);
  }

  lemma MovedText(t: Transaction, u: Transaction, moved: Bytes)
    ensures TransactionBytes(t.(data := t.data + moved)) + TransactionBytes(u)
         == TransactionBytes(t) + TransactionBytes(u.(id := moved + u.id))
  {
    hide Be64;
    var x, y, z := t.id + t.agent + Be64(t.timestamp), t.data, u.agent + Be64(u.timestamp) + u.data;
    assert TransactionBytes(t.(data := t.data + moved)) + TransactionBytes(u) == x + (y + moved) + (u.id + z);
    assert TransactionBytes(t) + TransactionBytes(u.(id := moved + u.id)) == x + y + (moved + u.id + z);
  }

  /** Field boundaries are not hashed: text can move from one transaction's data into the id of
      the next without changing the payload. */
  lemma BoundariesAreNotHashed(t: Transaction, u: Transaction, moved: Bytes, rest: seq<Transaction>)
    ensures PayloadBytes([t.(data := t.data + moved), u] + rest) == PayloadBytes([t, u.(id := moved + u.id)] + rest)
    ensures moved != [] ==>
              !AllSameButAction([t.(data := t.data + moved), u] + rest, [t, u.(id := moved + u.id)] + rest)
  {
    hide TransactionBytes, PayloadBytes;
    PayloadOfTwo(t.(data := t.data + moved), u, rest);
    PayloadOfTwo(t, u.(id := moved + u.id), rest);
    MovedText(t, u, moved);
    var a, b := [t.(data := t.data + moved), u] + rest, [t, u.(id := moved + u.id)] + rest;
    assert |a[0].data| == |b[0].data| + |moved|;
    assert AllSameButAction(a, b) ==> SameButAction(a[0], b[0]);
  }

  /** The text of a JSON number that fits a machine word: up to 19 digits, none of them a leading
      zero. */
  predicate IsJsonNumber(b: Bytes) {
    && 1 <= |b| <= 19 && AllDigits(b) && (|b| > 1 ==> b[0] != 48)
  }

  predicate AllDigits(b: Bytes) {
    forall i :: 0 <= i < |b| ==> 48 <= b[i] <= 57
  }

  /** Two lists of transactions whose data are all JSON numbers, that differ in more than their
      actions, and that are hashed alike: digits of one number move into the next id. */
  lemma DigitsMoveUnnoticed(t: Transaction, u: Transaction, digits: Bytes)
    requires IsJsonNumber(t.data) && IsJsonNumber(u.data) && t.data[0] != 48
    requires AllDigits(digits) && digits != [] && |t.data| + |digits| <= 19
    ensures var a, b := [t.(data := t.data + digits), u], [t, u.(id := digits + u.id)];
            && (forall x :: x in a + b ==> IsJsonNumber(x.data))
            && PayloadBytes(a) == PayloadBytes(b) && !AllSameButAction(a, b)
  {
    hide PayloadBytes, AllSameButAction;
    var a, b := [t.(data := t.data + digits), u], [t, u.(id := digits + u.id)];
    BoundariesAreNotHashed(t, u, digits, []);
    assert a + [] == a && b + [] == b;
    assert IsJsonNumber(t.data + digits);
  }

  /** Data 1 and 12, ids that differ by the digit 2. */
  lemma OneAndTwelve(t: Transaction, u: Transaction)
    requires t.data == [49] && u.data == [49]
    ensures var a, b := [t.(data := [49, 50]), u], [t, u.(id := [50] + u.id)];
            PayloadBytes(a) == PayloadBytes(b) && !AllSameButAction(a, b)
  {
    DigitsMoveUnnoticed(t, u, [50]);
    assert [49] + [50] == [49, 50];
  }

  // ---------------------------------------------------------------------------------------
  // The ledger

  function Ledger(chain: seq<Block>): seq<Transaction> {
    if chain == [] then [] else Ledger(chain[..|chain| - 1]) + chain[|chain| - 1].transactions
  }

  function OfAgent(ts: seq<Transaction>, agent: AgentId): seq<Transaction> {
    if ts == [] then []
    else
      var rest := OfAgent(ts[..|ts| - 1], agent);
      if ts[|ts| - 1].agent == agent then rest + [ts[|ts| - 1]] else rest
  }

  lemma {:induction false} OfAgentConcat(a: seq<Transaction>, b: seq<Transaction>, agent: AgentId)
    ensures OfAgent(a + b, agent) == OfAgent(a, agent) + OfAgent(b, agent)
    decreases |b|
  {
    if b == [] {
      assert a + b == a;
    } else {
      var n := |b| - 1;
      assert (a + b)[..|a + b| - 1] == a + b[..n];
      OfAgentConcat(a, b[..n], agent);
    }
  }

  function Zeros(n: nat): Bytes {
    seq(n, i => '0' as int)
  }

  /** The proof-of-work condition: the hash starts with `difficulty` zeros. */
  predicate Meets(h: Bytes, difficulty: nat) {
    difficulty <= |h| && h[..difficulty] == Zeros(difficulty)
  }

  /** Appending a correctly hashed block that links to the tip keeps the chain valid. */
  lemma Extend(chain: seq<Block>, block: Block, hash: Hasher)
    requires chain != [] && ValidChain(chain, hash)
    requires block.hash == hash(HashedBytes(block)) && block.previousHash == chain[|chain| - 1].hash
    ensures ValidChain(chain + [block], hash)
  {
    hide HashedBytes;
    var longer := chain + [block];
    forall i | 1 <= i < |longer| ensures Links(longer, i, hash) {
      if i < |chain| {
        assert Links(chain, i, hash);
        assert longer[i] == chain[i] && longer[i - 1] == chain[i - 1];
      }
    }
  }

  lemma LedgerExtends(chain: seq<Block>, block: Block)
    ensures Ledger(chain + [block]) == Ledger(chain) + block.transactions
  {
    assert (chain + [block])[..|chain|] == chain;
  }

  class SimulationBlockchain {
    var chain: seq<Block>
    var pending: seq<Transaction>
    const difficulty: nat
    const hash: Hasher
    ghost var added: seq<Transaction>  // everything ever added, in order

    /** The chain is accepted, and mined and pending transactions are all those ever added. */
    ghost predicate Valid()
      reads this
    {
      && chain != [] && ValidChain(chain, hash) && chain[0].hash == GENESIS_HASH
      && (forall i: nat :: i < |chain| ==> chain[i].index == i)
      && Ledger(chain) + pending == added
    }

    constructor (difficulty: nat, now: int, hash: Hasher)
      ensures Valid() && this.difficulty == difficulty && this.hash == hash
      ensures added == pending == [] && |chain| == 1
    {
      var genesis := Block(0, now, [], [48], GENESIS_HASH, 0);
      chain := [genesis];
      pending, added := [], [];
      this.difficulty := difficulty;
      this.hash := hash;
      assert Ledger([genesis]) == [] by { assert [genesis][..0] == []; }
    }

    method AddTransaction(t: Transaction)
      requires Valid()
      modifies this
      ensures Valid() && chain == old(chain) && added == old(added) + [t] && pending == old(pending) + [t]
    {
      pending := pending + [t];
      added := added + [t];
    }

    /** The block under construction, with a given nonce. */
    function Candidate(now: int, nonce: int): Block
      reads this
      requires chain != []
    {
      var last := chain[|chain| - 1];
      Block(last.index + 1, now, pending, last.hash, [], nonce)
    }

    /** Mines all pending transactions into one block, with the least nonce that meets the
        difficulty. That some nonce does is the proof-of-work assumption, given by `lucky`. */
    method MineBlock(now: int, ghost lucky: nat) returns (block: Block)
      requires Valid()
      requires Meets(hash(HashedBytes(Candidate(now, lucky))), difficulty)
      modifies this`chain, this`pending
      ensures Valid() && pending == [] && chain == old(chain) + [block]
      ensures block.transactions == old(pending) && block.timestamp == now
      ensures Meets(block.hash, difficulty) && 0 <= block.nonce <= lucky
      ensures forall n :: 0 <= n < block.nonce ==> !Meets(hash(HashedBytes(old(Candidate(now, n)))), difficulty)
    {
      hide HashedBytes, Meets, Zeros, Ledger, ValidChain;
      var previous := chain[|chain| - 1];
      block := Block(previous.index + 1, now, pending, previous.hash, [], 0);
      while true
        invariant block == Candidate(now, block.nonce) && 0 <= block.nonce <= lucky
        invariant forall n :: 0 <= n < block.nonce ==> !Meets(hash(HashedBytes(Candidate(now, n))), difficulty)
        decreases lucky - block.nonce
      {
        var h := hash(HashedBytes(block));
        if Meets(h, difficulty) {
          HashIsNotHashed(block, h);
          block := block.(hash := h);
          break;
        }
        block := block.(nonce := block.nonce + 1);
      }
      Extend(chain, block, hash);
      LedgerExtends(chain, block);
      chain := chain + [block];
      pending := [];
    }

    method IsChainValid() returns (ok: bool)
      ensures ok <==> ValidChain(chain, hash)
    {
      hide HashedBytes;
      var i := 1;
      while i < |chain|
        invariant 1 <= i
        invariant forall j :: 1 <= j < i && j < |chain| ==> Links(chain, j, hash)
      {
        var current, previous := chain[i], chain[i - 1];
        if current.hash != hash(HashedBytes(current)) {
          assert !Links(chain, i, hash);
          return false;
        }
        if current.previousHash != previous.hash {
          assert !Links(chain, i, hash);
          return false;
        }
        i := i + 1;
      }
      return true;
    }

    /** The mined transactions of an agent, in the order in which they were added. */
    method GetAgentHistory(agent: AgentId) returns (history: seq<Transaction>)
      requires Valid()
      ensures history == OfAgent(Ledger(chain), agent)
      ensures history + OfAgent(pending, agent) == OfAgent(added, agent)
    {
      history := [];
      for i := 0 to |chain|
        invariant history == OfAgent(Ledger(chain[..i]), agent)
      {
        hide OfAgent;
        history := AppendOfAgent(history, chain[i].transactions, agent);
        OfAgentConcat(Ledger(chain[..i]), chain[i].transactions, agent);
        assert chain[..i + 1] == chain[..i] + [chain[i]];
        LedgerExtends(chain[..i], chain[i]);
      }
      assert chain[..|chain|] == chain;
      OfAgentConcat(Ledger(chain), pending, agent);
    }
  }

  /** The loop over the transactions of one block. */
  method AppendOfAgent(history: seq<Transaction>, ts: seq<Transaction>, agent: AgentId) returns (r: seq<Transaction>)
    ensures r == history + OfAgent(ts, agent)
  {
    r := history;
    for j := 0 to |ts|
      invariant r == history + OfAgent(ts[..j], agent)
    {
      assert ts[..j + 1][..j] == ts[..j];
      if ts[j].agent == agent {
        r := r + [ts[j]];
      }
    }
    assert ts[..|ts|] == ts;
  }
}
