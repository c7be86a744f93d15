/** NUL-joined fields: the inputs of the hashes and of the signatures, and why they determine their fields.
    Text is modelled as characters; the UTF-8 encoding the code applies is not part of this model. */
module Payloads {

  const NUL: char := '\0'

  predicate Clean(s: string) {
    NUL !in s
  }

  predicate AllClean(parts: seq<string>) {
    forall i :: 0 <= i < |parts| ==> Clean(parts[i])
  }

  /** The parts with one NUL between each two. */
  function Joined(parts: seq<string>): string {
    if |parts| == 0 then []
    else if |parts| == 1 then parts[0]
    else Joined(parts[..|parts| - 1]) + [NUL] + parts[|parts| - 1]
  }

  /** The loop of the code: a NUL before each part but the first. */
  method JoinFields(parts: seq<string>) returns (buf: string)
    ensures buf == Joined(parts)
  {
    buf := [];
    for i := 0 to |parts|
      invariant buf == Joined(parts[..i])
    {
      if i > 0 {
        buf := buf + [NUL];
      }
      buf := buf + parts[i];
      assert parts[..i + 1][..i] == parts[..i];
    }
    assert parts[..|parts|] == parts;
  }

  /** The pieces between the NULs of `buf`; there is always at least one. */
  function Split(buf: string): (parts: seq<string>)
    ensures |parts| >= 1
  {
    if |buf| == 0 then [[]]
    else
      var n := |buf| - 1;
      var parts := Split(buf[..n]);
      if buf[n] == NUL then parts + [[]]
      else parts[|parts| - 1 := parts[|parts| - 1] + [buf[n]]]
  }

  lemma {:induction false} SplitAppend(buf: string, s: string)
    requires Clean(s)
    ensures var p := Split(buf); Split(buf + s) == p[|p| - 1 := p[|p| - 1] + s]
  {
    var p := Split(buf);
    if |s| == 0 {
      assert buf + s == buf && p[|p| - 1] + s == p[|p| - 1];
    } else {
      var n := |s| - 1;
      SplitAppend(buf, s[..n]);
      assert (buf + s)[..|buf + s| - 1] == buf + s[..n];
      assert p[|p| - 1] + s == p[|p| - 1] + s[..n] + [s[n]];
    }
  }

  lemma SplitNul(buf: string)
    ensures Split(buf + [NUL]) == Split(buf) + [[]]
  {
    assert (buf + [NUL])[..|buf|] == buf;
  }

  /** Splitting what was joined gives the fields back, if no field contains a NUL. */
  lemma {:induction false} SplitJoined(parts: seq<string>)
    requires |parts| >= 1 && AllClean(parts)
    ensures Split(Joined(parts)) == parts
  {
    var n := |parts| - 1;
    if n == 0 {
      SplitAppend([], parts[0]);
      assert [] + parts[0] == parts[0];
      assert Split([])[0 := [] + parts[0]] == parts;
    } else {
      var front := Joined(parts[..n]);
      SplitJoined(parts[..n]);
      SplitNul(front);
      SplitAppend(front + [NUL], parts[n]);
      assert [] + parts[n] == parts[n];
      assert (parts[..n] + [[]])[n := parts[n]] == parts;
    }
  }

  /** Clean fields joined to the same text are the same fields. */
  lemma JoinedInjective(p: seq<string>, q: seq<string>)
    requires |p| >= 1 && |q| >= 1 && AllClean(p) && AllClean(q) && Joined(p) == Joined(q)
    ensures p == q
  {
    SplitJoined(p);
    SplitJoined(q);
  }

  /** A field that contains a NUL can be cut elsewhere. */
  lemma NulMovesTheCut(a: string, b: string, c: string)
    ensures Joined([a + [NUL] + b, c]) == Joined([a, b + [NUL] + c])
  {
    assert [a + [NUL] + b, c][..1] == [a + [NUL] + b];
    assert [a, b + [NUL] + c][..1] == [a];
    assert a + [NUL] + b + [NUL] + c == a + [NUL] + (b + [NUL] + c);
  }

  // ---------- decimal timestamps ----------

  function Digit(d: nat): (c: char)
    requires d < 10
    ensures '0' <= c <= '9'
  {
    (d as char) + '0'
  }

  function DecimalNat(n: nat): (s: string)
    ensures |s| > 0
  {
    if n < 10 then [Digit(n)] else DecimalNat(n / 10) + [Digit(n % 10)]
  }

  /** The decimal text of a timestamp. */
  function Decimal(n: int): (s: string)
    ensures |s| > 0
  {
    if n < 0 then "-" + DecimalNat(-n) else DecimalNat(n)
  }

  function ParseNat(s: string): int {
    if |s| == 0 then 0 else ParseNat(s[..|s| - 1]) * 10 + (s[|s| - 1] as int - '0' as int)
  }

  function Parse(s: string): int {
    if |s| > 0 && s[0] == '-' then -ParseNat(s[1..]) else ParseNat(s)
  }

  lemma {:induction false} ParseDecimalNat(n: nat)
    ensures ParseNat(DecimalNat(n)) == n && (n > 0 ==> DecimalNat(n)[0] != '0') && (n == 0 ==> |DecimalNat(n)| == 1)
    ensures forall i :: 0 <= i < |DecimalNat(n)| ==> '0' <= DecimalNat(n)[i] <= '9'
    decreases n
  {
    if n < 10 {
      assert [Digit(n)][..0] == [];
      assert ParseNat([]) == 0;
    } else {
      ParseDecimalNat(n / 10);
      var s := DecimalNat(n);
      assert s[..|s| - 1] == DecimalNat(n / 10);
    }
  }

  /** The text is digits without a leading zero, or 0 alone, behind a sign if the number is negative. */
  ghost predicate PlainDecimal(n: int, s: string) {
    && |s| > 0 && (n < 0 ==> s[0] == '-')
    && var digits := if n < 0 then s[1..] else s;
       && |digits| > 0 && (forall i :: 0 <= i < |digits| ==> '0' <= digits[i] <= '9')
       && (digits[0] == '0' ==> n == 0 && |digits| == 1)
  }

  /** The decimal text has this form. */
  lemma DecimalIsPlain(n: int)
    ensures PlainDecimal(n, Decimal(n))
  {
    ParseDecimalNat(if n < 0 then -n else n);
    if n < 0 {
      assert ("-" + DecimalNat(-n))[1..] == DecimalNat(-n);
    }
  }

  /** Reading the decimal text back gives the timestamp, and the text has no NUL. */
  lemma ParseDecimal(n: int)
    ensures Parse(Decimal(n)) == n && Clean(Decimal(n))
  {
    ParseDecimalNat(if n < 0 then -n else n);
    if n < 0 {
      assert ("-" + DecimalNat(-n))[1..] == DecimalNat(-n);
    }
  }

  lemma DecimalInjective(m: int, n: int)
    requires Decimal(m) == Decimal(n)
    ensures m == n
  {
    ParseDecimal(m);
    ParseDecimal(n);
  }

  // ---------- the three signed payloads ----------

  /** The hexadecimal digest of some text; any function at all. */
  type Digest = string -> string

  function SubmitPayload(sha: Digest, fingerprint: string, armoredKey: string, timestamp: int): string {
    Joined(["GPGCHAIN_SUBMIT_V1", fingerprint, sha(armoredKey), Decimal(timestamp)])
  }

  function TrustPayload(blockHash: string, signer: string, timestamp: int): string {
    Joined(["GPGCHAIN_TRUST_V1", blockHash, signer, Decimal(timestamp)])
  }

  function RevokePayload(fingerprint: string, blockHash: string): string {
    Joined(["GPGCHAIN_REVOKE_V1", fingerprint, blockHash])
  }

  lemma TagsDiffer()
    ensures "GPGCHAIN_SUBMIT_V1" != "GPGCHAIN_TRUST_V1" && "GPGCHAIN_TRUST_V1" != "GPGCHAIN_REVOKE_V1"
    ensures "GPGCHAIN_REVOKE_V1" != "GPGCHAIN_SUBMIT_V1"
    ensures AllClean(["GPGCHAIN_SUBMIT_V1", "GPGCHAIN_TRUST_V1", "GPGCHAIN_REVOKE_V1"])
  {
    assert |"GPGCHAIN_SUBMIT_V1"| == 18 && |"GPGCHAIN_TRUST_V1"| == 17;
    assert "GPGCHAIN_REVOKE_V1"[9] != "GPGCHAIN_SUBMIT_V1"[9] && |"GPGCHAIN_REVOKE_V1"| == 18;
    var tags := ["GPGCHAIN_SUBMIT_V1", "GPGCHAIN_TRUST_V1", "GPGCHAIN_REVOKE_V1"];
    assert Clean(tags[0]) && Clean(tags[1]) && Clean(tags[2]);
  }

  lemma SubmitFields(sha: Digest, fp: string, key: string, ts: int)
    requires Clean(fp) && Clean(sha(key))
    ensures Split(SubmitPayload(sha, fp, key, ts)) == ["GPGCHAIN_SUBMIT_V1", fp, sha(key), Decimal(ts)]
  {
    TagsDiffer();
    ParseDecimal(ts);
    SplitJoined(["GPGCHAIN_SUBMIT_V1", fp, sha(key), Decimal(ts)]);
  }

  lemma TrustFields(bh: string, signer: string, ts: int)
    requires Clean(bh) && Clean(signer)
    ensures Split(TrustPayload(bh, signer, ts)) == ["GPGCHAIN_TRUST_V1", bh, signer, Decimal(ts)]
  {
    TagsDiffer();
    ParseDecimal(ts);
    SplitJoined(["GPGCHAIN_TRUST_V1", bh, signer, Decimal(ts)]);
  }

  lemma RevokeFields(fp: string, bh: string)
    requires Clean(fp) && Clean(bh)
    ensures Split(RevokePayload(fp, bh)) == ["GPGCHAIN_REVOKE_V1", fp, bh]
  {
    TagsDiffer();
    SplitJoined(["GPGCHAIN_REVOKE_V1", fp, bh]);
  }

  lemma SameFields(p: seq<string>, q: seq<string>)
    requires p == q
    ensures |p| == |q| && forall i :: 0 <= i < |p| ==> p[i] == q[i]
  {
  }

  /** A SUBMIT payload determines its fields, up to the digest of the key. */
  lemma SubmitDetermines(sha: Digest, fp: string, key: string, ts: int, fp': string, key': string, ts': int)
    requires Clean(fp) && Clean(fp') && Clean(sha(key)) && Clean(sha(key'))
    ensures SubmitPayload(sha, fp, key, ts) == SubmitPayload(sha, fp', key', ts')
       <==> fp == fp' && sha(key) == sha(key') && ts == ts'
  {
    if SubmitPayload(sha, fp, key, ts) == SubmitPayload(sha, fp', key', ts') {
      SubmitFields(sha, fp, key, ts);
      SubmitFields(sha, fp', key', ts');
      var p, q := Split(SubmitPayload(sha, fp, key, ts)), Split(SubmitPayload(sha, fp', key', ts'));
      SameFields(p, q);
      assert p[1] == fp && p[2] == sha(key) && p[3] == Decimal(ts);
      assert q[1] == fp' && q[2] == sha(key') && q[3] == Decimal(ts');
      DecimalInjective(ts, ts');
    }
  }

  /** A TRUST payload determines its fields. */
  lemma TrustDetermines(bh: string, fp: string, ts: int, bh': string, fp': string, ts': int)
    requires Clean(bh) && Clean(fp) && Clean(bh') && Clean(fp')
    ensures TrustPayload(bh, fp, ts) == TrustPayload(bh', fp', ts') <==> bh == bh' && fp == fp' && ts == ts'
  {
    if TrustPayload(bh, fp, ts) == TrustPayload(bh', fp', ts') {
      TrustFields(bh, fp, ts);
      TrustFields(bh', fp', ts');
      var p, q := Split(TrustPayload(bh, fp, ts)), Split(TrustPayload(bh', fp', ts'));
      SameFields(p, q);
      assert p[1] == bh && p[2] == fp && p[3] == Decimal(ts);
      assert q[1] == bh' && q[2] == fp' && q[3] == Decimal(ts');
      DecimalInjective(ts, ts');
    }
  }

  /** A REVOKE payload determines its fields. */
  lemma RevokeDetermines(fp: string, bh: string, fp': string, bh': string)
    requires Clean(fp) && Clean(bh) && Clean(fp') && Clean(bh')
    ensures RevokePayload(fp, bh) == RevokePayload(fp', bh') <==> fp == fp' && bh == bh'
  {
    if RevokePayload(fp, bh) == RevokePayload(fp', bh') {
      RevokeFields(fp, bh);
      RevokeFields(fp', bh');
      var p, q := Split(RevokePayload(fp, bh)), Split(RevokePayload(fp', bh'));
      SameFields(p, q);
      assert p[1] == fp && p[2] == bh && q[1] == fp' && q[2] == bh';
    }
  }

  /** Payloads of different kinds never coincide, so a signature made for one is none for another. */
  lemma KindsDiffer(sha: Digest, fp: string, key: string, ts: int, bh: string, signer: string, ts': int, fp': string,
                    bh': string)
    requires Clean(fp) && Clean(sha(key)) && Clean(bh) && Clean(signer) && Clean(fp') && Clean(bh')
    ensures SubmitPayload(sha, fp, key, ts) != TrustPayload(bh, signer, ts')
    ensures SubmitPayload(sha, fp, key, ts) != RevokePayload(fp', bh')
    ensures TrustPayload(bh, signer, ts') != RevokePayload(fp', bh')
  {
    SubmitFields(sha, fp, key, ts);
    TrustFields(bh, signer, ts');
    RevokeFields(fp', bh');
    assert Split(SubmitPayload(sha, fp, key, ts))[0] == "GPGCHAIN_SUBMIT_V1";
    assert Split(TrustPayload(bh, signer, ts'))[0] == "GPGCHAIN_TRUST_V1";
    assert |Split(RevokePayload(fp', bh'))| == 3;
    TagsDiffer();
  }
}
