/** What redaction of secrets guarantees, stated over the functions of
    `Secrets` (which `Secrets.SecretManager.RedactSecrets` is proved to
    follow). */
module SecretProperties {
  import opened Secrets

  /** An occurrence after the first character is an occurrence in the whole. */
  lemma OccursInTail(s: string, pat: string)
    requires s != [] && Occurs(s[1..], pat)
    ensures Occurs(s, pat)
  {
    var i :| OccursAt(s[1..], pat, i);
    assert s[i + 1..i + 1 + |pat|] == s[1..][i..i + |pat|];
    assert OccursAt(s, pat, i + 1);
  }

  /** A text without the secret is left as it is. */
  lemma {:induction false} ReplaceAbsent(s: string, pat: string, rep: string)
    requires pat != [] && !Occurs(s, pat)
    ensures ReplaceAll(s, pat, rep) == s
    decreases |s|
  {
    if |s| >= |pat| {
      assert s[0..0 + |pat|] == s[..|pat|];
      assert !OccursAt(s, pat, 0);
      if !Occurs(s[1..], pat) {
        ReplaceAbsent(s[1..], pat, rep);
        assert [s[0]] + s[1..] == s;
      } else {
        OccursInTail(s, pat);
      }
    }
  }

  /** Replacing a secret by itself changes nothing: the scan cuts the text
      into pieces that it puts back in order. */
  lemma {:induction false} ReplaceBySelf(s: string, pat: string)
    requires pat != []
    ensures ReplaceAll(s, pat, pat) == s
    decreases |s|
  {
    if |s| >= |pat| {
      if s[..|pat|] == pat {
        ReplaceBySelf(s[|pat|..], pat);
        assert s[..|pat|] + s[|pat|..] == s;
      } else {
        ReplaceBySelf(s[1..], pat);
        assert [s[0]] + s[1..] == s;
      }
    }
  }

  /** Wherever the secret occurs, the output shows the replacement. */
  lemma {:induction false} ReplacementAppears(s: string, pat: string, rep: string)
    requires pat != [] && Occurs(s, pat)
    ensures Occurs(ReplaceAll(s, pat, rep), rep)
    decreases |s|
  {
    var i :| OccursAt(s, pat, i);
    if s[..|pat|] == pat {
      var r := ReplaceAll(s, pat, rep);
      assert r[0..0 + |rep|] == rep;
      assert OccursAt(r, rep, 0);
    } else {
      assert i != 0;
      assert s[1..][i - 1..i - 1 + |pat|] == s[i..i + |pat|];
      assert OccursAt(s[1..], pat, i - 1);
      ReplacementAppears(s[1..], pat, rep);
      var t := ReplaceAll(s[1..], pat, rep);
      var j :| OccursAt(t, rep, j);
      assert ([s[0]] + t)[j + 1..j + 1 + |rep|] == t[j..j + |rep|];
      assert OccursAt([s[0]] + t, rep, j + 1);
    }
  }

  /** A text that is exactly the secret becomes the replacement. */
  lemma ReplaceWholeText(pat: string, rep: string)
    requires pat != []
    ensures ReplaceAll(pat, pat, rep) == rep
  {
    assert pat[..|pat|] == pat && pat[|pat|..] == [];
    assert ReplaceLiteral([], pat, rep) == [];
    assert ReplaceLiteral(pat, pat, rep) == rep + [];
  }

  /** The empty secret: the replacement goes in front of every character and
      at the end, so the text grows by one replacement more than it has
      characters, and starts and ends with the replacement. */
  lemma {:induction false} EmptySecret(s: string, rep: string)
    ensures var r := ReplaceAll(s, [], rep);
      && |r| == |s| + (|s| + 1) * |rep|
      && r[..|rep|] == rep
      && r[|r| - |rep|..] == rep
    decreases |s|
  {
    if s != [] {
      EmptySecret(s[1..], rep);
      var t := InsertEverywhere(s[1..], rep);
      var r := rep + [s[0]] + t;
      assert r == InsertEverywhere(s, rep);
      assert |t| == |s| - 1 + |s| * |rep|;
      assert (|s| + 1) * |rep| == |s| * |rep| + |rep|;
      assert r[..|rep|] == rep;
      assert r[|r| - |rep|..] == t[|t| - |rep|..];
    }
  }

  /** In `r`, the `i`-th character of `s` follows `i + 1` copies of `rep`
      and the `i` characters of `s` before it. */
  ghost predicate CharAfterCopies(r: string, s: string, rep: string, i: int)
    requires 0 <= i < |s|
  {
    i * (|rep| + 1) + |rep| < |r| && r[i * (|rep| + 1) + |rep|] == s[i]
  }

  /** The empty secret, character by character: each character of the text
      sits right after its own copy of the replacement. */
  lemma {:induction false} EmptySecretPositions(s: string, rep: string)
    ensures forall i :: 0 <= i < |s| ==> CharAfterCopies(ReplaceAll(s, [], rep), s, rep, i)
    decreases |s|
  {
    if s != [] {
      EmptySecretPositions(s[1..], rep);
      var t := InsertEverywhere(s[1..], rep);
      assert ReplaceAll(s[1..], [], rep) == t;
      var r := rep + [s[0]] + t;
      assert r == InsertEverywhere(s, rep) == ReplaceAll(s, [], rep);
      forall i | 0 <= i < |s|
        ensures CharAfterCopies(r, s, rep, i)
      {
        if i > 0 {
          assert CharAfterCopies(t, s[1..], rep, i - 1);
          assert s[1..][i - 1] == s[i];
        }
        EmptySecretStep(s, rep, t, i);
      }
    }
  }

  /** One step of `EmptySecretPositions`: position `i` of the text against
      position `i - 1` of its tail. */
  lemma EmptySecretStep(s: string, rep: string, t: string, i: nat)
    requires s != [] && i < |s|
    requires i > 0 ==> (i - 1) * (|rep| + 1) + |rep| < |t| && t[(i - 1) * (|rep| + 1) + |rep|] == s[i]
    ensures var r := rep + [s[0]] + t;
      i * (|rep| + 1) + |rep| < |r| && r[i * (|rep| + 1) + |rep|] == s[i]
  {
    var k := |rep| + 1;
    if i == 0 {
      assert i * k == 0;
    } else {
      var j := (i - 1) * k + |rep|;
      assert i * k == (i - 1) * k + k;
      assert (rep + [s[0]] + t)[k + j] == t[j];
    }
  }

  /** Redacting with one more secret is redacting with the others, then
      replacing the new one. */
  lemma {:induction false} RedactAppend(secrets: seq<string>, x: string, s: string)
    ensures RedactAll(secrets + [x], s) == ReplaceAll(RedactAll(secrets, s), x, Marker)
    decreases |secrets|
  {
    if secrets != [] {
      assert (secrets + [x])[1..] == secrets[1..] + [x];
      RedactAppend(secrets[1..], x, ReplaceAll(s, secrets[0], Marker));
    }
  }

  /** Redacting with the concatenation of two lists of secrets is redacting
      with the first, then with the second. */
  lemma {:induction false} RedactConcat(a: seq<string>, b: seq<string>, s: string)
    ensures RedactAll(a + b, s) == RedactAll(b, RedactAll(a, s))
    decreases |a|
  {
    if a != [] {
      assert (a + b)[1..] == a[1..] + b;
      RedactConcat(a[1..], b, ReplaceAll(s, a[0], Marker));
    } else {
      assert a + b == b;
    }
  }

  /** A text in which no (non-empty) secret occurs is logged as it is. */
  lemma {:induction false} RedactNothingToHide(secrets: seq<string>, s: string)
    requires forall i :: 0 <= i < |secrets| ==> secrets[i] != [] && !Occurs(s, secrets[i])
    ensures RedactAll(secrets, s) == s
    decreases |secrets|
  {
    if secrets != [] {
      ReplaceAbsent(s, secrets[0], Marker);
      RedactNothingToHide(secrets[1..], s);
    }
  }

  /** Adding a secret, then redacting, replaces that secret in what the
      earlier secrets left; the earlier secrets are still there, in order. */
  method AddThenRedact(m: SecretManager, secret: string, logRecord: string) returns (r: string)
    modifies m
    ensures m.secrets == old(m.secrets) + [secret]
    ensures r == ReplaceAll(RedactAll(old(m.secrets), logRecord), secret, Marker)
  {
    m.AddSecret(secret);
    r := m.RedactSecrets(logRecord);
    RedactAppend(old(m.secrets), secret, logRecord);
  }

  /** After `clear_secrets`, redaction is the identity. */
  method ClearThenRedact(m: SecretManager, logRecord: string) returns (r: string)
    modifies m
    ensures m.secrets == [] && r == logRecord
  {
    m.ClearSecrets();
    r := m.RedactSecrets(logRecord);
  }
}
