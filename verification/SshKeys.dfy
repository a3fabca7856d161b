/** Parsing and normalising OpenSSH public-key lines. */
module SshKeys {
  import opened Prelude
  import opened Text

  datatype PublicKeyError = EmptyInput | InvalidFormat | UnsupportedAlgorithm

  datatype PublicKeyRecord =
    PublicKeyRecord(algorithm: string, keyData: string, comment: Option<string>, original: string)

  predicate IsSupportedAlgorithm(value: string) {
    value == "ssh-ed25519" || value == "ssh-rsa" || value == "ecdsa-sha2-nistp256"
    || value == "ecdsa-sha2-nistp384" || value == "ecdsa-sha2-nistp521"
  }

  function ParsePublicKey(input: string): Result<PublicKeyRecord, PublicKeyError> {
    var trimmed := Trim(input);
    if trimmed == "" then Err(EmptyInput)
    else
      var parts := SplitWs(trimmed);
      if |parts| < 2 then Err(InvalidFormat)
      else if !IsSupportedAlgorithm(parts[0]) then Err(UnsupportedAlgorithm)
      else if parts[1] == "" then Err(InvalidFormat)
      else
        var comment := if |parts| > 2 then Some(Join(parts[2..], " ")) else None;
        Ok(PublicKeyRecord(parts[0], parts[1], comment, trimmed))
  }

  /** The canonical line: the white-space separated tokens of the input, one space apart. */
  function Normalize(input: string): Result<string, PublicKeyError> {
    var tokens := SplitWs(input);
    if tokens == [] then Err(EmptyInput)
    else if |tokens| < 2 then Err(InvalidFormat)
    else if !IsSupportedAlgorithm(tokens[0]) then Err(UnsupportedAlgorithm)
    else Ok(Join(tokens, " "))
  }

  lemma JoinTail(ts: seq<string>)
    requires |ts| >= 2
    ensures Join(ts, " ") == ts[0] + " " + ts[1] + (if |ts| > 2 then " " + Join(ts[2..], " ") else "")
  {
    assert ts[1..][0] == ts[1] && ts[1..][1..] == ts[2..];
    assert Join(ts, " ") == ts[0] + " " + Join(ts[1..], " ");
    if |ts| > 2 {
      assert Join(ts[1..], " ") == ts[1] + " " + Join(ts[2..], " ");
      Assoc(ts[0] + " ", ts[1] + " ", Join(ts[2..], " "));
      Assoc(ts[0] + " ", ts[1], " ");
      Assoc(ts[0] + " " + ts[1], " ", Join(ts[2..], " "));
    } else {
      assert Join(ts[1..], " ") == ts[1];
      assert ts[0] + " " + ts[1] + "" == ts[0] + " " + ts[1];
    }
  }

  method NormalizePublicKey(input: string) returns (r: Result<string, PublicKeyError>)
    ensures r == Normalize(input)
  {
    hide SplitWs, Trim, TrimStart, TrimEnd, Join, IsWs, IsSupportedAlgorithm;
    SplitWsTrim(input);
    var record :- ParsePublicKey(input);
    var normalized := record.algorithm + " " + record.keyData;
    if record.comment.Some? {
      normalized := normalized + [' '];
      normalized := normalized + Trim(record.comment.value);
      SplitWsJoin(SplitWs(input)[2..]);
      Assoc(record.algorithm + " " + record.keyData, " ", record.comment.value);
    }
    JoinTail(SplitWs(input));
    assert record.comment.None? ==> normalized + "" == normalized;
    r := Ok(normalized);
  }

  predicate IsNormalized(key: string) {
    Normalize(key) == Ok(key)
  }

  /** Normalising keeps the tokens, and a normalised line is a fixed point. */
  lemma NormalizeCanonical(input: string)
    requires Normalize(input).Ok?
    ensures SplitWs(Normalize(input).value) == SplitWs(input)
    ensures IsNormalized(Normalize(input).value)
  {
    hide SplitWs, Trim, TrimStart, TrimEnd, Join, IsWs, IsSupportedAlgorithm;
    SplitWsJoin(SplitWs(input));
  }

  /** Two valid keys normalise alike exactly when their token lists agree. */
  lemma NormalizeAlike(a: string, b: string)
    requires Normalize(a).Ok? && Normalize(b).Ok?
    ensures Normalize(a) == Normalize(b) <==> SplitWs(a) == SplitWs(b)
  {
    hide SplitWs, Trim, TrimStart, TrimEnd, Join, IsWs, IsSupportedAlgorithm;
    SplitWsJoin(SplitWs(a));
    SplitWsJoin(SplitWs(b));
  }

  /** Reparsing a normalised key gives the algorithm, key data and comment of the input. */
  lemma NormalizeReparse(input: string)
    requires Normalize(input).Ok?
    ensures var key := Normalize(input).value;
            ParsePublicKey(input).Ok? && ParsePublicKey(key) == Ok(ParsePublicKey(input).value.(original := key))
  {
    hide SplitWs, Trim, TrimStart, TrimEnd, Join, IsWs, IsSupportedAlgorithm;
    var key := Normalize(input).value;
    SplitWsTrim(input);
    NormalizeCanonical(input);
    SplitWsJoin(SplitWs(input));
    SplitWsTrim(key);
  }

  /** `parse_public_key` fails exactly as normalising does. */
  lemma ParseAgrees(input: string)
    ensures ParsePublicKey(input).Ok? <==> Normalize(input).Ok?
    ensures ParsePublicKey(input).Err? ==> Normalize(input) == Err(ParsePublicKey(input).error)
  {
    hide SplitWs, Trim, TrimStart, TrimEnd, Join, IsWs, IsSupportedAlgorithm;
    SplitWsTrim(input);
  }

  lemma {:induction false} JoinNoNewline(ts: seq<string>)
    requires AllTokens(ts)
    ensures '\n' !in Join(ts, " ")
  {
    if |ts| > 1 {
      JoinNoNewline(ts[1..]);
    }
    assert IsWs('\n');
    if ts != [] {
      assert Token(ts[0]);
    }
  }

  lemma AlgorithmShape(a: string)
    requires IsSupportedAlgorithm(a)
    ensures a != "" && a[0] != '#'
  {
  }

  /** A normalised key is one wire-safe line that begins with an algorithm name. */
  lemma NormalizedShape(key: string)
    requires IsNormalized(key)
    ensures WireSafe(key) && key != "" && key[0] != '#' && !EndsCr(key)
  {
    var ts := SplitWs(key);
    assert IsWs('\r');
    AlgorithmShape(ts[0]);
    hide SplitWs, Trim, TrimStart, TrimEnd, Join, IsWs, IsSupportedAlgorithm;
    SplitWsJoin(ts);
    JoinNoNewline(ts);
    JoinTail(ts);
    assert key[0] == ts[0][0];
  }

  /**
   A line is a key exactly when it has two tokens or more and starts with one of five names; else
   the error says why.
   */
  lemma KeyLineIff(input: string)
    ensures var ts := SplitWs(input);
            var named := |ts| >= 2 && (ts[0] == "ssh-ed25519" || ts[0] == "ssh-rsa" || ts[0] == "ecdsa-sha2-nistp256"
                                       || ts[0] == "ecdsa-sha2-nistp384" || ts[0] == "ecdsa-sha2-nistp521");
            Normalize(input) == (if |ts| == 0 then Err(EmptyInput)
                                 else if |ts| == 1 then Err(InvalidFormat)
                                 else if !named then Err(UnsupportedAlgorithm)
                                 else Ok(Join(ts, " ")))
            && (ParsePublicKey(input).Ok? <==> named)
            && (!named ==> Normalize(input).Err? && ParsePublicKey(input) == Err(Normalize(input).error))
  {
    hide SplitWs, Trim, TrimStart, TrimEnd, Join, IsWs;
    SplitWsTrim(input);
  }

  /** A parsed key is its tokens: algorithm, data, and the rest one space apart, beside the trimmed line. */
  lemma ParsedKeyIs(input: string)
    requires ParsePublicKey(input).Ok?
    ensures var ts, key := SplitWs(input), ParsePublicKey(input).value;
            |ts| >= 2 && key.algorithm == ts[0] && key.keyData == ts[1] && key.original == Trim(input)
            && key.comment == (if |ts| == 2 then None else Some(Join(ts[2..], " ")))
  {
    hide SplitWs, Trim, TrimStart, TrimEnd, Join, IsWs, IsSupportedAlgorithm;
    SplitWsTrim(input);
  }
}
