/**
 Replay protection: the verifier with a pruned nonce cache, as an object whose ghost history is
 the run it has been through, and the laws of such runs.
 */
module Replay {
  import opened Prelude
  import opened Text
  import opened Auth

  function SatSub(a: u64, b: u64): u64 {
    if a < b then 0 else a - b
  }

  function SatAdd(a: u64, b: u64): u64 {
    if a + b > U64_MAX then U64_MAX else a + b
  }

  datatype Config = Config(sidToken: string, expectedSid: string, skew: u64, ttl: u64)

  datatype Call = Call(envelope: SignedEnvelope, now: u64)

  function NonceKey(e: SignedEnvelope): string {
    e.senderId + ":" + e.nonce
  }

  predicate InWindow(cfg: Config, c: Call) {
    SatSub(c.now, cfg.skew) <= c.envelope.timestampSecs <= SatAdd(c.now, cfg.skew)
  }

  function Prune(seen: map<string, u64>, now: u64, ttl: u64): map<string, u64> {
    map k | k in seen && SatSub(now, seen[k]) <= ttl :: seen[k]
  }

  /** One call of `verify`: the new cache and the answer. */
  function VerifyStep(crypto: Crypto, cfg: Config, seen: map<string, u64>, c: Call)
    : (map<string, u64>, Result<(), AuthError>)
  {
    match VerifyEnvelope(crypto, c.envelope, cfg.sidToken, cfg.expectedSid)
    case Err(error) => (seen, Err(error))
    case Ok(_) =>
      if !InWindow(cfg, c) then (seen, Err(TimestampOutsideWindow))
      else
        var kept := Prune(seen, c.now, cfg.ttl);
        if NonceKey(c.envelope) in kept then (kept, Err(ReplayNonce))
        else (kept[NonceKey(c.envelope) := c.now], Ok(()))
  }

  /** A call refused for its signature, its SID or its time leaves the cache alone. */
  lemma RefusedKeepsCache(crypto: Crypto, cfg: Config, seen: map<string, u64>, c: Call)
    requires VerifyStep(crypto, cfg, seen, c).1.Err? && VerifyStep(crypto, cfg, seen, c).1 != Err(ReplayNonce)
    ensures VerifyStep(crypto, cfg, seen, c).0 == seen
  {
    hide VerifyEnvelope, InWindow, Prune;
  }

  /**
   The verdict on a message with a right signature: its time must be within the skew of the clock, and
   its sender and nonce must not be remembered from a time at most one TTL ago.
   */
  lemma VerdictIs(crypto: Crypto, cfg: Config, seen: map<string, u64>, c: Call)
    requires VerifyEnvelope(crypto, c.envelope, cfg.sidToken, cfg.expectedSid) == Ok(())
    ensures var k := c.envelope.senderId + ":" + c.envelope.nonce;
            var late := c.envelope.timestampSecs + cfg.skew < c.now;
            var early := c.envelope.timestampSecs > c.now + cfg.skew;
            VerifyStep(crypto, cfg, seen, c).1
            == (if late || early then Err(TimestampOutsideWindow)
                else if k in seen && c.now - seen[k] <= cfg.ttl then Err(ReplayNonce)
                else Ok(()))
  {
    hide VerifyEnvelope;
  }

  /** The cache key names the message's sender and nonce, when senders hold no `:`. */
  lemma NonceKeyIff(a: SignedEnvelope, b: SignedEnvelope)
    requires ':' !in a.senderId && ':' !in b.senderId
    ensures NonceKey(a) == NonceKey(b) <==> a.senderId == b.senderId && a.nonce == b.nonce
  {
    if NonceKey(a) == NonceKey(b) {
      Peel(a.senderId, a.nonce, ':', b.senderId, b.nonce);
    }
  }

  /** A sender with a `:` shares its key with another sender and nonce. */
  lemma ColonSender(e: SignedEnvelope) returns (f: SignedEnvelope)
    requires ':' in e.senderId
    ensures NonceKey(e) == NonceKey(f) && ':' !in f.senderId && f.senderId != e.senderId
  {
    var (a, b) := SplitOnce(e.senderId, ':').value;
    f := e.(senderId := a, nonce := b + ":" + e.nonce);
    Assoc(a + ":", b, ":" + e.nonce);
    assert |a| < |e.senderId|;
    assert (a + [':'] + b) + ":" + e.nonce == a + ":" + (b + ":" + e.nonce);
  }

  /** The cache after a run of calls. */
  function SeenAfter(crypto: Crypto, cfg: Config, calls: seq<Call>): map<string, u64> {
    if calls == [] then map[]
    else VerifyStep(crypto, cfg, SeenAfter(crypto, cfg, calls[..|calls| - 1]), calls[|calls| - 1]).0
  }

  /** The answer to call number `i` of a run. */
  function ResultAt(crypto: Crypto, cfg: Config, calls: seq<Call>, i: nat): Result<(), AuthError>
    requires i < |calls|
  {
    VerifyStep(crypto, cfg, SeenAfter(crypto, cfg, calls[..i]), calls[i]).1
  }

  class EnvelopeVerifier {
    const crypto: Crypto
    const sidToken: string
    const expectedSid: string
    const timestampSkewSecs: u64
    const nonceTtlSecs: u64
    var seenNonces: map<string, u64>
    ghost var history: seq<Call>

    /** The configuration the laws below are stated over. */
    function Cfg(): Config {
      Config(sidToken, expectedSid, timestampSkewSecs, nonceTtlSecs)
    }

    /** The cache is the one the calls so far lead to. */
    ghost predicate Valid()
      reads this
    {
      seenNonces == SeenAfter(crypto, Cfg(), history)
    }

    constructor (crypto: Crypto, sidToken: string, expectedSid: string, timestampSkewSecs: u64, nonceTtlSecs: u64)
      ensures Valid() && history == [] && this.crypto == crypto
      ensures Cfg() == Config(sidToken, expectedSid, timestampSkewSecs, nonceTtlSecs)
    {
      this.crypto := crypto;
      this.sidToken := sidToken;
      this.expectedSid := expectedSid;
      this.timestampSkewSecs := timestampSkewSecs;
      this.nonceTtlSecs := nonceTtlSecs;
      seenNonces := map[];
      history := [];
    }

    method Verify(envelope: SignedEnvelope, nowSecs: u64) returns (r: Result<(), AuthError>)
      requires Valid()
      modifies this
      ensures Valid() && history == old(history) + [Call(envelope, nowSecs)]
      ensures r == ResultAt(crypto, Cfg(), history, |old(history)|)
    {
      ghost var step := VerifyStep(crypto, Cfg(), seenNonces, Call(envelope, nowSecs));
      assert (history + [Call(envelope, nowSecs)])[..|history|] == history;
      history := history + [Call(envelope, nowSecs)];
      var checked := VerifyEnvelope(crypto, envelope, sidToken, expectedSid);
      if checked.Err? {
        return Err(checked.error);
      }
      var earliest := SatSub(nowSecs, timestampSkewSecs);
      var latest := SatAdd(nowSecs, timestampSkewSecs);
      if envelope.timestampSecs < earliest || envelope.timestampSecs > latest {
        return Err(TimestampOutsideWindow);
      }
      PruneNonces(nowSecs);
      var nonceKey := envelope.senderId + ":" + envelope.nonce;
      if nonceKey in seenNonces {
        return Err(ReplayNonce);
      }
      seenNonces := seenNonces[nonceKey := nowSecs];
      assert seenNonces == step.0;
      return Ok(());
    }

    method PruneNonces(nowSecs: u64)
      modifies this`seenNonces
      ensures seenNonces == Prune(old(seenNonces), nowSecs, nonceTtlSecs)
    {
      seenNonces := map k | k in seenNonces && SatSub(nowSecs, seenNonces[k]) <= nonceTtlSecs :: seenNonces[k];
    }
  }
}
