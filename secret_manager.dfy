/** The client's secret manager: a list of secrets seen at run time (tokens,
    passwords) and the redaction of every one of them from a log line before
    it is written. Each secret is escaped before it is handed to `re.sub`, so
    it is matched as a literal string. */
module Secrets {

  /** What a redacted secret is replaced by. */
  const Marker := "<REDACTED>"

  /** `pat` occurs in `s` at position `i`. */
  ghost predicate OccursAt(s: string, pat: string, i: int)
  {
    0 <= i && i + |pat| <= |s| && s[i..i + |pat|] == pat
  }

  /** `pat` occurs in `s`, at some position. */
  ghost predicate Occurs(s: string, pat: string)
  {
    exists i :: OccursAt(s, pat, i)
  }

  /** `re.sub(re.escape(pat), rep, s)` for a non-empty `pat`: scanning from
      the left, each occurrence of `pat` that does not overlap one already
      replaced becomes `rep`. */
  function ReplaceLiteral(s: string, pat: string, rep: string): string
    requires pat != []
    decreases |s|
  {
    if |s| < |pat| then s
    else if s[..|pat|] == pat then rep + ReplaceLiteral(s[|pat|..], pat, rep)
    else [s[0]] + ReplaceLiteral(s[1..], pat, rep)
  }

  /** `re.sub` with the empty pattern: it matches at every position, the
      end included, so `rep` goes before each character and after the last. */
  function InsertEverywhere(s: string, rep: string): string
    decreases |s|
  {
    if s == [] then rep else rep + [s[0]] + InsertEverywhere(s[1..], rep)
  }

  /** `re.sub(f"({re.escape(pat)})", rep, s)`. */
  function ReplaceAll(s: string, pat: string, rep: string): string
  {
    if pat == [] then InsertEverywhere(s, rep) else ReplaceLiteral(s, pat, rep)
  }

  /** The redaction loop: each secret in turn, from the first added. */
  function RedactAll(secrets: seq<string>, s: string): string
    decreases |secrets|
  {
    if secrets == [] then s else RedactAll(secrets[1..], ReplaceAll(s, secrets[0], Marker))
  }

  /** `SecretManager`. */
  class SecretManager {
    var secrets: seq<string>

    /** A new manager knows no secret. */
    constructor()
      ensures secrets == []
    {
      secrets := [];
    }

    /** `add_secret(secret)`: the secret goes last, the others stay. */
    method AddSecret(secret: string)
      modifies this
      ensures secrets == old(secrets) + [secret]
    {
      secrets := secrets + [secret];
    }

    /** The `secrets` property: the secrets in the order they were added. */
    method Secrets() returns (r: seq<string>)
      ensures r == secrets
    {
      r := secrets;
    }

    /** `clear_secrets()`. */
    method ClearSecrets()
      modifies this
      ensures secrets == []
    {
      secrets := [];
    }

    /** `redact_secrets(log_record)`; the secrets are left as they are. */
    method RedactSecrets(logRecord: string) returns (redactedRecord: string)
      ensures redactedRecord == RedactAll(secrets, logRecord)
    {
      redactedRecord := logRecord;
      var i := 0;
      while i < |secrets|
        invariant 0 <= i <= |secrets|
        invariant RedactAll(secrets[i..], redactedRecord) == RedactAll(secrets, logRecord)
      {
        assert secrets[i..][1..] == secrets[i + 1..];
        redactedRecord := ReplaceAll(redactedRecord, secrets[i], Marker);
        i := i + 1;
      }
    }
  }
}
