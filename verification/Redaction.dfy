// The redaction's functions: texts and records that leave the machine, scrubbed of secrets.
module Redaction {
  import opened Regex
  import opened Secrets
  import opened SecretShapes

  method RedactSecrets(text: string) returns (r: Replaced)
    ensures r == Scrub(text)
    ensures !HasSecret(r.text) && (r.count > 0 <==> HasSecret(text)) && (!HasSecret(text) ==> r.text == text)
  {
    hide ReplaceAll, HasSecret;
    ScrubIsRight(text);
    if text == "" {
      EmptyIsClean(|SECRET_PATTERNS|);
      return Replaced(text, 0);
    }
    var out, count: nat := text, 0;
    for k := 0 to |SECRET_PATTERNS|
      invariant Replaced(out, count) == Passes(text, k)
    {
      PatternsAreSealed(k);
      var pass := ReplaceAll(SECRET_PATTERNS[k], REDACTED, out);
      out, count := pass.text, count + pass.count;
    }
    r := Replaced(out, count);
  }

  // containsSecret says yes exactly when the text holds a secret, that is, when some pattern matches.
  method ContainsSecret(text: string) returns (found: bool)
    ensures found <==> HasSecret(text)
    ensures found <==> !AllClean(text)
  {
    var r := RedactSecrets(text);
    CleanIffNoSecret(text);
    found := r.count > 0;
    hide *;
  }

  lemma KeyInText(before: string, prefix: string, body: string, after: string, min: nat, ok: char -> bool)
    requires |body| >= min && forall k :: 0 <= k < |body| ==> ok(body[k])
    ensures KeyAt(before + prefix + body + after, |before|, prefix, min, ok)
  {
    var t, x := before + prefix + body + after, |before|;
    assert t == before + (prefix + (body + after));
    assert t[x..x + |prefix|] == prefix;
    forall k | x + |prefix| <= k < x + |prefix| + min
      ensures ok(t[k])
    {
      assert t[k] == body[k - x - |prefix|];
    }
  }

  // In any surroundings, "sk-" with sixteen key characters behind it is a secret.
  lemma KeyIsFound(before: string, body: string, after: string)
    requires |body| >= 16 && forall k :: 0 <= k < |body| ==> KeyChar(body[k])
    ensures HasSecret(before + "sk-" + body + after)
  {
    KeyInText(before, "sk-", body, after, 16, KeyChar);
    hide KeyAt, GithubAt, SlackAt, JwtAt, BearerAt, PemAt, KeyChar;
    assert SecretAt(before + "sk-" + body + after, |before|);
  }

  // Also with a hyphen inside, as project keys have it.
  lemma ProjectKeyIsFound(before: string, after: string)
    ensures HasSecret(before + "sk-" + "proj-abcdefgh12345678" + after)
  {
    ProjectKeyChars("proj-abcdefgh12345678");
    hide *;
    KeyIsFound(before, "proj-abcdefgh12345678", after);
  }

  lemma ProjectKeyChars(body: string)
    requires body == "proj-abcdefgh12345678"
    ensures |body| >= 16 && forall k :: 0 <= k < |body| ==> KeyChar(body[k])
  {
  }

  // --- Whole records ---

  datatype Capture = Capture(id: string, insertedCode: string)

  function SecretsIn(records: seq<Capture>): nat {
    if records == [] then 0 else SecretsIn(records[..|records| - 1]) + Scrub(records[|records| - 1].insertedCode).count
  }

  method RedactRecord(record: Capture) returns (scrubbed: Capture, count: nat)
    ensures scrubbed == record.(insertedCode := Scrub(record.insertedCode).text)
    ensures count == Scrub(record.insertedCode).count
    ensures !HasSecret(scrubbed.insertedCode)
    ensures count == 0 <==> !HasSecret(record.insertedCode)
    ensures count == 0 ==> scrubbed == record
  {
    var r := RedactSecrets(record.insertedCode);
    if r.count == 0 {
      return record, 0;
    }
    return record.(insertedCode := r.text), r.count;
  }

  ghost predicate IsScrubbed(record: Capture, scrubbed: Capture) {
    scrubbed == record.(insertedCode := Scrub(record.insertedCode).text) && !HasSecret(scrubbed.insertedCode)
  }

  lemma SecretsInNext(records: seq<Capture>, k: nat)
    requires k < |records|
    ensures SecretsIn(records[..k + 1]) == SecretsIn(records[..k]) + Scrub(records[k].insertedCode).count
  {
    assert records[..k + 1][..k] == records[..k];
    hide Scrub;
  }

  lemma SecretsInEnds(records: seq<Capture>)
    ensures SecretsIn(records[..0]) == 0 && records[..|records|] == records
  {
  }

  // Every record keeps its place and its id, and none of them holds a secret afterwards.
  method RedactRecords(records: seq<Capture>) returns (scrubbed: seq<Capture>, total: nat)
    ensures |scrubbed| == |records| && total == SecretsIn(records)
    ensures forall k :: 0 <= k < |records| ==> IsScrubbed(records[k], scrubbed[k])
  {
    scrubbed, total := [], 0;
    SecretsInEnds(records);
    hide Scrub, HasSecret, SecretsIn;
    for k := 0 to |records|
      invariant |scrubbed| == k && total == SecretsIn(records[..k])
      invariant forall l :: 0 <= l < k ==> IsScrubbed(records[l], scrubbed[l])
    {
      var record, count := RedactRecord(records[k]);
      SecretsInNext(records, k);
      scrubbed, total := scrubbed + [record], total + count;
      hide IsScrubbed;
    }
  }
}
