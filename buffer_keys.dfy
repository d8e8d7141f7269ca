/** The key format of the counter buffer. The hooks build a key as
    f"{type}:{id}"; the flush tasks select keys by the pattern "{type}:*" and
    recover the id as `key.split(":", 1)[1]`, which the store converts back
    to an integer. */
module BufferKeys {
  import opened Common

  predicate IsDigit(c: char) {
    '0' <= c <= '9'
  }

  predicate AllDigits(s: string) {
    forall i | 0 <= i < |s| :: IsDigit(s[i])
  }

  function DigitChar(d: nat): (c: char)
    requires d < 10
    ensures IsDigit(c)
  {
    (('0' as int) + d) as char
  }

  function DigitValue(c: char): (d: nat)
    requires IsDigit(c)
    ensures d < 10
  {
    (c as int) - ('0' as int)
  }

  /** `str(n)` for a non-negative integer: its decimal digits, without
      leading zeros. */
  function DecimalText(n: nat): (s: string)
    ensures |s| > 0 && AllDigits(s)
    ensures ':' !in s
    decreases n
  {
    if n < 10 then [DigitChar(n)] else DecimalText(n / 10) + [DigitChar(n % 10)]
  }

  /** The integer conversion the store applies to the id text of a key:
      a non-empty string of decimal digits denotes its value. */
  function ParseDecimal(s: string): (r: Option<nat>)
    ensures r.Some? <==> |s| > 0 && AllDigits(s)
    decreases |s|
  {
    if |s| == 0 || !IsDigit(s[|s| - 1]) then None
    else if |s| == 1 then Some(DigitValue(s[0]))
    else match ParseDecimal(s[..|s| - 1])
      case None => None
      case Some(v) => Some(v * 10 + DigitValue(s[|s| - 1]))
  }

  /** `s.split(":", 1)`: the text before the first colon and the text after
      it, or None when `s` has no colon (where `[1]` would raise). */
  function SplitAtColon(s: string): (r: Option<(string, string)>)
    ensures r.Some? <==> ':' in s
    ensures r.Some? ==> s == r.value.0 + ":" + r.value.1 && ':' !in r.value.0
    decreases |s|
  {
    if |s| == 0 then None
    else if s[0] == ':' then Some(([], s[1..]))
    else match SplitAtColon(s[1..])
      case None => None
      case Some(parts) => Some(([s[0]] + parts.0, parts.1))
  }

  /** The buffer key of a row: f"{type}:{id}" (signals.py). */
  function KeyOf(k: RowKey): string {
    TagText(k.table) + ":" + DecimalText(k.id)
  }

  /** Reads a key back into the row it names, as the flush does: the tag
      before the first colon and the integer after it. */
  function ParseKey(key: string): Option<RowKey> {
    match SplitAtColon(key)
    case None => None
    case Some(parts) =>
      match (ParseTag(parts.0), ParseDecimal(parts.1))
      case (Some(t), Some(id)) => Some(RowKey(t, id))
      case _ => None
  }

  /** A key the hooks can have written: one that is the key of the row it
      parses to. */
  predicate Canonical(key: string) {
    ParseKey(key).Some? && KeyOf(ParseKey(key).value) == key
  }

  /** The Redis glob "{type}:*": the key starts with the tag and a colon. */
  predicate MatchesPattern(key: string, t: ContentType) {
    var prefix := TagText(t) + ":";
    |prefix| <= |key| && key[..|prefix|] == prefix
  }

  /** The id text that the flush extracts from a key matching "{type}:*". */
  function IdText(key: string): string
    requires ':' in key
  {
    SplitAtColon(key).value.1
  }

  lemma {:induction false} ParseDecimalOfText(n: nat)
    ensures ParseDecimal(DecimalText(n)) == Some(n)
    decreases n
  {
    if n >= 10 {
      var s := DecimalText(n);
      assert s[..|s| - 1] == DecimalText(n / 10);
      ParseDecimalOfText(n / 10);
    }
  }

  /** The first colon of `a + ":" + b` is the one after `a` when `a` has
      none. */
  lemma {:induction false} SplitAtFirstColon(a: string, b: string)
    requires ':' !in a
    ensures SplitAtColon(a + ":" + b) == Some((a, b))
    decreases |a|
  {
    var s := a + ":" + b;
    if |a| == 0 {
      assert s[1..] == b;
    } else {
      assert s[1..] == a[1..] + ":" + b;
      SplitAtFirstColon(a[1..], b);
      assert [s[0]] + a[1..] == a;
    }
  }

  /** Round trip of the key format: the flush recovers from a key exactly
      the row whose counter the hook meant to move. */
  lemma KeyRoundTrip(k: RowKey)
    ensures SplitAtColon(KeyOf(k)) == Some((TagText(k.table), DecimalText(k.id)))
    ensures ParseKey(KeyOf(k)) == Some(k)
    ensures Canonical(KeyOf(k))
  {
    TagRoundTrip(k.table);
    SplitAtFirstColon(TagText(k.table), DecimalText(k.id));
    ParseDecimalOfText(k.id);
  }

  /** Distinct rows have distinct keys. */
  lemma KeyInjective(k1: RowKey, k2: RowKey)
    ensures KeyOf(k1) == KeyOf(k2) ==> k1 == k2
  {
    KeyRoundTrip(k1);
    KeyRoundTrip(k2);
  }

  /** A canonical key matches the pattern of exactly its own table, and its
      id text converts to its row id. */
  lemma {:induction false} CanonicalMatches(key: string, t: ContentType)
    requires Canonical(key)
    ensures ':' in key
    ensures MatchesPattern(key, t) <==> ParseKey(key).value.table == t
    ensures ParseDecimal(IdText(key)) == Some(ParseKey(key).value.id)
  {
    var k := ParseKey(key).value;
    KeyRoundTrip(k);
    assert key == TagText(k.table) + ":" + DecimalText(k.id);
    if k.table == t {
      assert key[..|TagText(t) + ":"|] == TagText(t) + ":";
    } else {
      var prefix := TagText(t) + ":";
      assert key[0] != prefix[0];
      assert |prefix| <= |key| ==> key[..|prefix|][0] == key[0];
    }
    ParseDecimalOfText(k.id);
  }
}
