/**
 Session identity: the per-browser id kept in local storage under the key
 "sessionId" (src/presence.js:4-11).

 Local storage is an immutable map from keys to string values. The clock
 reading `Date.now()` and the random base-36 suffix are parameters, since
 neither a clock nor randomness can be modelled.
 */
module LocalSession {

  type LocalStorage = map<string, string>

  /** The storage key the id is kept under. */
  const SessionKey: string := "sessionId"

  /** Result of one `getOrCreateSessionId` call: the returned id and the storage afterwards. */
  datatype IdResult = IdResult(id: string, storage: LocalStorage)

  predicate IsDigit(c: char) {
    '0' <= c <= '9'
  }

  function DigitChar(d: nat): (c: char)
    requires d < 10
    ensures IsDigit(c)
  {
    "0123456789"[d]
  }

  function DigitValue(c: char): (d: nat)
    requires IsDigit(c)
    ensures d < 10
  {
    (c as int - '0' as int) as nat
  }

  /** Decimal rendering of a timestamp, as a JavaScript template literal prints a non-negative integer. */
  function Decimal(n: nat): (s: string)
    ensures |s| > 0
    ensures forall i :: 0 <= i < |s| ==> IsDigit(s[i])
    decreases n
  {
    if n < 10 then [DigitChar(n)] else Decimal(n / 10) + [DigitChar(n % 10)]
  }

  /** Reads a string of decimal digits back as a number (the inverse of `Decimal`). */
  function ParseDecimal(s: string): nat
    requires forall i :: 0 <= i < |s| ==> IsDigit(s[i])
    decreases |s|
  {
    if |s| == 0 then 0 else ParseDecimal(s[..|s| - 1]) * 10 + DigitValue(s[|s| - 1])
  }

  /**
   The freshly generated id: the creation time in decimal, a dash, then the
   random suffix. The time is a `nat` here, unlike the `int` event times
   elsewhere, because `Date.now()` counts milliseconds since the epoch and
   `Decimal` renders only non-negative numbers (no minus sign).
   */
  function FreshId(now: nat, suffix: string): string {
    Decimal(now) + "-" + suffix
  }

  /** `localStorage.getItem('sessionId')` is truthy: present and not the empty string. */
  predicate HasSessionId(storage: LocalStorage) {
    SessionKey in storage && storage[SessionKey] != ""
  }

  /**
   `getOrCreateSessionId`: keeps a stored non-empty id, otherwise generates one
   from `now` and `suffix`, stores it and returns it.
   */
  function GetOrCreateSessionId(storage: LocalStorage, now: nat, suffix: string): (r: IdResult)
    ensures r.id != ""
    ensures SessionKey in r.storage && r.storage[SessionKey] == r.id
    ensures HasSessionId(storage) ==> r.id == storage[SessionKey] && r.storage == storage
    ensures !HasSessionId(storage) ==> r.id == FreshId(now, suffix)
    ensures forall k :: k != SessionKey ==> (k in r.storage <==> k in storage)
    ensures forall k :: k != SessionKey && k in storage ==> r.storage[k] == storage[k]
  {
    if HasSessionId(storage) then
      IdResult(storage[SessionKey], storage)
    else
      var id := FreshId(now, suffix);
      IdResult(id, storage[SessionKey := id])
  }

  /** Parsing the decimal rendering of `n` gives back `n`. */
  lemma {:induction false} DecimalRoundTrip(n: nat)
    ensures ParseDecimal(Decimal(n)) == n
    decreases n
  {
    var s := Decimal(n);
    if n < 10 {
      assert s[..|s| - 1] == [];
    } else {
      var p := Decimal(n / 10);
      assert s[..|s| - 1] == p;
      DecimalRoundTrip(n / 10);
    }
  }

  /** Two fresh ids are equal only when they were made from the same time and the same suffix. */
  lemma FreshIdInjective(n1: nat, s1: string, n2: nat, s2: string)
    requires FreshId(n1, s1) == FreshId(n2, s2)
    ensures n1 == n2 && s1 == s2
  {
    var d1, d2 := Decimal(n1), Decimal(n2);
    var id := FreshId(n1, s1);
    assert id[|d1|] == '-';
    assert id[|d2|] == '-';
    assert |d1| == |d2|;
    assert d1 == id[..|d1|] == d2;
    assert s1 == id[|d1| + 1..] == s2;
    DecimalRoundTrip(n1);
    DecimalRoundTrip(n2);
  }

  /** A lower-case letter or digit: the characters `toString(36)` produces after "0.". */
  predicate IsBase36(c: char) {
    IsDigit(c) || 'a' <= c <= 'z'
  }

  /**
   The id can be used as one path segment under `sessions/`: it is non-empty
   and has none of the characters `/` (which would nest the path) or
   `.`, `#`, `$`, `[`, `]` (which the store rejects in a key).
   */
  predicate IsPlainKey(id: string) {
    id != "" && forall i :: 0 <= i < |id| ==> id[i] !in "/.#$[]"
  }

  /**
   A freshly generated id is always a single plain key: decimal digits, a
   dash and a base-36 suffix contain none of the path or forbidden characters.
   */
  lemma FreshIdIsPlainKey(now: nat, suffix: string)
    requires forall i :: 0 <= i < |suffix| ==> IsBase36(suffix[i])
    ensures IsPlainKey(FreshId(now, suffix))
  {
  }

  /**
   Calling `getOrCreateSessionId` a second time returns the id of the first
   call and leaves storage as the first call left it, whatever time and
   suffix the second call would have generated.
   */
  lemma GetOrCreateIdempotent(storage: LocalStorage, now: nat, suffix: string, now': nat, suffix': string)
    ensures var first := GetOrCreateSessionId(storage, now, suffix);
            var second := GetOrCreateSessionId(first.storage, now', suffix');
            second == first
  {
  }
}
