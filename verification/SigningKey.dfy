/**
 * The production check of the queue signing keys, once in the API
 * (apps/api/src/app.config.ts:34-41, 238-263) and once in the worker
 * (apps/worker/src/main.ts:8-33).
 */
module SigningKey {
  import opened Options
  import opened Text
  import opened Base64

  const MIN_KEY_BYTES := 32

  const ACTIVE := "INTERNAL_QUEUE_SIGNING_KEY"

  const PREVIOUS := "INTERNAL_QUEUE_SIGNING_KEY_PREVIOUS"

  predicate IsValidInternalQueueSigningKey(value: string) {
    if !MatchesBase64(value) then false
    else
      var decoded := Decode(value);
      |decoded| >= MIN_KEY_BYTES && Encode(decoded) == value
  }

  /** A key is accepted exactly when it is the canonical encoding of at least 32 bytes. */
  lemma AcceptedIffCanonicalEncoding(value: string)
    ensures IsValidInternalQueueSigningKey(value) <==> exists b: seq<Byte> :: |b| >= MIN_KEY_BYTES && value == Encode(b)
  {
    if b: seq<Byte> :| |b| >= MIN_KEY_BYTES && value == Encode(b) {
      DecodeOfEncode(b);
    }
    if IsValidInternalQueueSigningKey(value) {
      assert value == Encode(Decode(value));
    }
  }

  /** The same by form: padded groups of four, at least 44 characters, spare bits zero. */
  lemma AcceptedIffWellFormed(value: string)
    ensures IsValidInternalQueueSigningKey(value) <==>
              MatchesBase64(value) && AllInAlphabet(WithoutPadding(value)) && |WithoutPadding(value)| >= 43
              && SpareBitsZero(ValuesOf(WithoutPadding(value)))
  {
    if MatchesBase64(value) {
      EncodeOfDecode(value);
      MatchedParts(value);
      CharsOfBytes(WithoutPadding(value));
    }
  }

  lemma EmptyKeyRefused()
    ensures !IsValidInternalQueueSigningKey("")
  {
    AcceptedIffWellFormed("");
  }

  // ---- The API's schema -----------------------------------------------------------------------

  /** Joi.string().trim().required().custom(...); an empty string is refused by Joi.string(). */
  predicate ApiAcceptsActive(value: Option<string>) {
    value.Some? && Trim(value.value) != "" && IsValidInternalQueueSigningKey(Trim(value.value))
  }

  /** Joi.string().allow('').optional().custom(...): not trimmed. */
  predicate ApiAcceptsPrevious(value: Option<string>) {
    value.None? || value.value == "" || IsValidInternalQueueSigningKey(value.value)
  }

  // ---- The worker's loop ----------------------------------------------------------------------

  datatype Entry = Entry(name: string, value: Option<string>)

  predicate Falsy(value: Option<string>) {
    value.None? || value.value == ""
  }

  /** What the worker lets through: no previous key at all, or a value that the API's check accepts once trimmed. */
  predicate WorkerAccepts(e: Entry) {
    || (e.name == PREVIOUS && Falsy(e.value))
    || (e.value.Some? && IsValidInternalQueueSigningKey(Trim(e.value.value)))
  }

  /** Err carries the name of the first variable that is refused. */
  method ValidateProductionInternalQueueSigningKey(nodeEnv: string, active: Option<string>, previous: Option<string>)
    returns (r: Result<bool, string>)
    ensures r.Err? <==> nodeEnv == "production"
                        && !(WorkerAccepts(Entry(ACTIVE, active)) && WorkerAccepts(Entry(PREVIOUS, previous)))
    ensures r.Err? ==> r.error == if WorkerAccepts(Entry(ACTIVE, active)) then PREVIOUS else ACTIVE
  {
    if nodeEnv != "production" {
      return Ok(true);
    }
    var keys := [Entry(ACTIVE, active), Entry(PREVIOUS, previous)];
    var i := 0;
    while i < |keys|
      invariant i <= |keys|
      invariant i >= 1 ==> WorkerAccepts(Entry(ACTIVE, active))
      invariant i == 2 ==> WorkerAccepts(Entry(PREVIOUS, previous))
    {
      var e := keys[i];
      assert e == if i == 0 then Entry(ACTIVE, active) else Entry(PREVIOUS, previous);
      var accepted := CheckKey(e);
      if !accepted {
        return Err(e.name);
      }
      i := i + 1;
    }
    r := Ok(true);
  }

  /** One turn of the loop: the worker's own copy of the check decides as the API's does on the trimmed value. */
  method CheckKey(e: Entry) returns (accepted: bool)
    ensures accepted <==>
              || (e.name == PREVIOUS && Falsy(e.value))
              || (e.value.Some? && IsValidInternalQueueSigningKey(Trim(e.value.value)))
    ensures accepted <==>
              || (e.name == PREVIOUS && Falsy(e.value))
              || (e.value.Some? && exists b: seq<Byte> :: |b| >= MIN_KEY_BYTES && Trim(e.value.value) == Encode(b))
  {
    if e.value.Some? {
      AcceptedIffCanonicalEncoding(Trim(e.value.value));
    }
    if e.name == PREVIOUS && Falsy(e.value) {
      return true;
    }
    var key := if e.value.None? then "" else Trim(e.value.value);
    var isBase64 := MatchesBase64(key);
    var decoded: seq<Byte> := if isBase64 then Decode(key) else [];
    accepted := !(!isBase64 || |decoded| < MIN_KEY_BYTES || Encode(decoded) != key);
    if e.value.None? {
      EmptyKeyRefused();
    }
  }

  // ---- The two agree --------------------------------------------------------------------------

  /** On the active key the API and the worker always agree. */
  lemma ActiveAgrees(active: Option<string>)
    ensures WorkerAccepts(Entry(ACTIVE, active)) <==> ApiAcceptsActive(active)
  {
    EmptyKeyRefused();
    assert ACTIVE != PREVIOUS by { assert |ACTIVE| != |PREVIOUS|; }
  }

  lemma CharNotSpace(c: char)
    requires InAlphabet(c) || c == '='
    ensures !IsSpace(c)
  {
  }

  lemma ValidKeyIsTrimmed(value: string)
    ensures IsValidInternalQueueSigningKey(value) ==> Trim(value) == value
  {
    if IsValidInternalQueueSigningKey(value) {
      AcceptedIffWellFormed(value);
      MatchedParts(value);
      CharNotSpace(value[0]);
      CharNotSpace(value[|value| - 1]);
      TrimFixed(value);
    }
  }

  /**
   * On the previous key they agree except that the worker also accepts a
   * valid key with white space around it, which the API refuses.
   */
  lemma PreviousAgreesIffTrimmed(previous: Option<string>)
    ensures ApiAcceptsPrevious(previous) ==> WorkerAccepts(Entry(PREVIOUS, previous))
    ensures WorkerAccepts(Entry(PREVIOUS, previous)) && !ApiAcceptsPrevious(previous) <==>
              previous.Some? && Trim(previous.value) != previous.value
              && IsValidInternalQueueSigningKey(Trim(previous.value))
  {
    if previous.Some? {
      var value, key := previous.value, Trim(previous.value);
      EmptyKeyRefused();
      if IsValidInternalQueueSigningKey(value) {
        ValidKeyIsTrimmed(value);
      }
      assert value == "" ==> key == value;
    }
  }

  /** Every valid key shows the difference once a space is put after it. */
  lemma SpaceAfterPreviousKey(b: seq<Byte>)
    requires |b| >= MIN_KEY_BYTES
    ensures var spaced := Some(Encode(b) + " ");
            WorkerAccepts(Entry(PREVIOUS, spaced)) && !ApiAcceptsPrevious(spaced)
  {
    var key := Encode(b);
    AcceptedIffCanonicalEncoding(key);
    ValidKeyIsTrimmed(key);
    var spaced := key + " ";
    assert key != "" by { EmptyKeyRefused(); }
    assert TrimStart(spaced) == spaced by {
      assert Trim(key) == key;
      assert spaced[0] == key[0];
    }
    assert spaced[..|spaced| - 1] == key;
    assert TrimEnd(spaced) == TrimEnd(key);
    assert TrimEnd(key) == key;
    PreviousAgreesIffTrimmed(Some(spaced));
  }
}
