/** The signed receipt and its canonical JSON text. */
module ReceiptCodec {
  import opened Collections
  import OT = OwnedTiny

  /** The JSON values a receipt can hold. */
  datatype Value = Text(text: string) | Number(number: nat)

  type Pair = (string, Value)

  datatype Receipt = Receipt(
    formatVersion: nat,
    purpose: string,
    region: string,
    nonce: string,
    namespace: string,
    state: OT.State,
    credentialTag: string,
    authenticationTag: string)

  /** Keyed hashing under the owner key, by domain and message. */
  datatype Crypto = Crypto(mac: (string, string) -> string)

  datatype Error = InvalidReceipt

  const PURPOSE := "pufferlab-owned-tiny"
  const NAMESPACE_PREFIX := "pufferlab-tiny-"
  const FIELDS: set<string> := {
    "format_version", "purpose", "creating_region", "nonce", "namespace", "state", "credential_tag",
    "authentication_tag"
  }

  // ----- Printing

  /** Characters that canonical receipt text holds unescaped. */
  predicate Plain(c: char) {
    ' ' <= c <= '~' && c != '"' && c != '\\'
  }

  predicate PlainText(s: string) {
    forall c | c in s :: Plain(c)
  }

  predicate PlainPairs(pairs: seq<Pair>) {
    forall pair | pair in pairs :: PlainText(pair.0) && (pair.1.Text? ==> PlainText(pair.1.text))
  }

  function Digit(d: nat): char
    requires d < 10
  {
    "0123456789"[d]
  }

  function PrintNumber(n: nat): string {
    if n < 10 then [Digit(n)] else PrintNumber(n / 10) + [Digit(n % 10)]
  }

  function PrintText(s: string): string {
    "\"" + s + "\""
  }

  function PrintValue(v: Value): string {
    match v
    case Text(s) => PrintText(s)
    case Number(n) => PrintNumber(n)
  }

  function PrintPair(pair: Pair): string {
    PrintText(pair.0) + ":" + PrintValue(pair.1)
  }

  function PrintPairs(pairs: seq<Pair>): string
    requires pairs != []
  {
    if |pairs| == 1 then PrintPair(pairs[0]) else PrintPair(pairs[0]) + "," + PrintPairs(pairs[1..])
  }

  predicate LexLe(a: string, b: string) {
    a == "" || (b != "" && (a[0] < b[0] || (a[0] == b[0] && LexLe(a[1..], b[1..]))))
  }

  predicate KeyLe(a: Pair, b: Pair) {
    LexLe(a.0, b.0)
  }

  /** Compact text with sorted keys. */
  function CanonicalJson(pairs: seq<Pair>): string {
    if pairs == [] then "{}" else "{" + PrintPairs(Sort(pairs, KeyLe)) + "}"
  }

  // ----- Parsing

  /** The characters up to the closing quote; escapes never occur in canonical receipt text. */
  function ParseChars(s: string): (r: Option<(string, string)>)
    ensures r.Some? ==> |r.value.1| < |s|
  {
    if s == "" then None
    else if s[0] == '"' then Some(("", s[1..]))
    else if !Plain(s[0]) then None
    else
      var rest := ParseChars(s[1..]);
      if rest.None? then None else Some(([s[0]] + rest.value.0, rest.value.1))
  }

  function ParseText(s: string): (r: Option<(string, string)>)
    ensures r.Some? ==> |r.value.1| < |s|
  {
    if s == "" || s[0] != '"' then None else ParseChars(s[1..])
  }

  predicate IsDigit(c: char) {
    '0' <= c <= '9'
  }

  function DigitValue(c: char): nat
    requires IsDigit(c)
  {
    c as nat - '0' as nat
  }

  function ParseDigits(s: string, value: nat): (r: (nat, string))
    ensures |r.1| <= |s| && (s != "" && IsDigit(s[0]) ==> |r.1| < |s|)
    decreases |s|
  {
    if s == "" || !IsDigit(s[0]) then (value, s) else ParseDigits(s[1..], 10 * value + DigitValue(s[0]))
  }

  function ParseValue(s: string): (r: Option<(Value, string)>)
    ensures r.Some? ==> |r.value.1| < |s|
  {
    if s == "" then None
    else if s[0] == '"' then
      var text := ParseText(s);
      if text.None? then None else Some((Text(text.value.0), text.value.1))
    else if IsDigit(s[0]) then
      var (value, rest) := ParseDigits(s, 0);
      Some((Number(value), rest))
    else None
  }

  function ParsePair(s: string): (r: Option<(Pair, string)>)
    ensures r.Some? ==> |r.value.1| < |s|
  {
    var key := ParseText(s);
    if key.None? || key.value.1 == "" || key.value.1[0] != ':' then None
    else
      var value := ParseValue(key.value.1[1..]);
      if value.None? then None else Some(((key.value.0, value.value.0), value.value.1))
  }

  /** Pairs up to the closing brace. */
  function ParsePairs(s: string): Option<(seq<Pair>, string)>
    decreases |s|
  {
    var pair := ParsePair(s);
    if pair.None? || pair.value.1 == "" then None
    else if pair.value.1[0] == '}' then Some(([pair.value.0], pair.value.1[1..]))
    else if pair.value.1[0] != ',' then None
    else
      var more := ParsePairs(pair.value.1[1..]);
      if more.None? then None else Some(([pair.value.0] + more.value.0, more.value.1))
  }

  function ParseObject(s: string): Option<seq<Pair>> {
    if |s| < 2 || s[0] != '{' then None
    else if s[1] == '}' then if |s| == 2 then Some([]) else None
    else
      var pairs := ParsePairs(s[1..]);
      if pairs.None? || pairs.value.1 != "" then None else Some(pairs.value.0)
  }

  // ----- Parsing undoes printing

  lemma {:induction false} CharsRoundTrip(t: string, rest: string)
    requires PlainText(t)
    ensures ParseChars(t + "\"" + rest) == Some((t, rest))
  {
    var s := t + "\"" + rest;
    if t == "" {
      assert s[0] == '"' && s[1..] == rest;
    } else {
      assert t[0] in t;
      assert forall c | c in t[1..] :: c in t;
      CharsRoundTrip(t[1..], rest);
      assert s[1..] == t[1..] + "\"" + rest;
      assert t == [t[0]] + t[1..];
    }
  }

  lemma TextRoundTrip(t: string, rest: string)
    requires PlainText(t)
    ensures ParseText(PrintText(t) + rest) == Some((t, rest))
  {
    CharsRoundTrip(t, rest);
    assert (PrintText(t) + rest)[1..] == t + "\"" + rest;
  }

  lemma DigitRoundTrip(d: nat)
    requires d < 10
    ensures IsDigit(Digit(d)) && DigitValue(Digit(d)) == d
  {
  }

  lemma {:induction false} NumberRoundTrip(n: nat, rest: string)
    ensures ParseDigits(PrintNumber(n) + rest, 0) == ParseDigits(rest, n)
    ensures PrintNumber(n) != "" && IsDigit(PrintNumber(n)[0])
  {
    if n < 10 {
      DigitRoundTrip(n);
      assert (PrintNumber(n) + rest)[1..] == rest;
    } else {
      var tail := [Digit(n % 10)] + rest;
      NumberRoundTrip(n / 10, tail);
      DigitRoundTrip(n % 10);
      assert PrintNumber(n) + rest == PrintNumber(n / 10) + tail;
      assert tail[1..] == rest;
    }
  }

  lemma ValueRoundTrip(v: Value, rest: string)
    requires v.Text? ==> PlainText(v.text)
    requires rest == "" || !IsDigit(rest[0])
    ensures ParseValue(PrintValue(v) + rest) == Some((v, rest))
  {
    match v
    case Text(t) => TextRoundTrip(t, rest);
    case Number(n) => NumberRoundTrip(n, rest);
  }

  lemma PairRoundTrip(pair: Pair, rest: string)
    requires PlainText(pair.0) && (pair.1.Text? ==> PlainText(pair.1.text))
    requires rest == "" || !IsDigit(rest[0])
    ensures ParsePair(PrintPair(pair) + rest) == Some((pair, rest))
  {
    var tail := ":" + PrintValue(pair.1) + rest;
    assert PrintPair(pair) + rest == PrintText(pair.0) + tail;
    TextRoundTrip(pair.0, tail);
    assert tail[1..] == PrintValue(pair.1) + rest;
    ValueRoundTrip(pair.1, rest);
  }

  lemma {:induction false} PairsRoundTrip(pairs: seq<Pair>, rest: string)
    requires pairs != [] && PlainPairs(pairs)
    ensures ParsePairs(PrintPairs(pairs) + "}" + rest) == Some((pairs, rest))
  {
    hide ParsePair, PrintPair;
    assert pairs[0] in pairs;
    if |pairs| == 1 {
      PairRoundTrip(pairs[0], "}" + rest);
      assert PrintPairs(pairs) + "}" + rest == PrintPair(pairs[0]) + ("}" + rest);
      assert ("}" + rest)[1..] == rest;
      assert pairs == [pairs[0]];
    } else {
      var tail := "," + PrintPairs(pairs[1..]) + "}" + rest;
      assert PrintPairs(pairs) + "}" + rest == PrintPair(pairs[0]) + tail;
      PairRoundTrip(pairs[0], tail);
      assert tail[1..] == PrintPairs(pairs[1..]) + "}" + rest;
      assert forall pair | pair in pairs[1..] :: pair in pairs;
      PairsRoundTrip(pairs[1..], rest);
      assert pairs == [pairs[0]] + pairs[1..];
    }
  }

  /** Parsing canonical text gives back the same fields. */
  lemma ObjectRoundTrip(pairs: seq<Pair>)
    requires PlainPairs(pairs)
    ensures ParseObject(CanonicalJson(pairs)) == Some(Sort(pairs, KeyLe))
  {
    if pairs == [] {
      EmptyRoundTrip();
    } else {
      NonemptyRoundTrip(pairs);
    }
  }

  lemma EmptyRoundTrip()
    ensures ParseObject(CanonicalJson([])) == Some(Sort([], KeyLe))
  {
    hide ParsePairs, PrintPairs;
  }

  lemma NonemptyRoundTrip(pairs: seq<Pair>)
    requires PlainPairs(pairs) && pairs != []
    ensures ParseObject(CanonicalJson(pairs)) == Some(Sort(pairs, KeyLe))
  {
    hide ParsePairs, PrintPairs, Sort;
    var sorted := Sort(pairs, KeyLe);
    PermutationMembers(pairs, sorted);
    PairsRoundTrip(sorted, "");
    assert PrintPairs(sorted) + "}" + "" == PrintPairs(sorted) + "}";
    FirstIsQuote(sorted);
    ParseBraced(PrintPairs(sorted), sorted);
  }

  lemma ParseBraced(body: string, pairs: seq<Pair>)
    requires body != "" && body[0] == '"' && ParsePairs(body + "}") == Some((pairs, ""))
    ensures ParseObject("{" + body + "}") == Some(pairs)
  {
    hide ParsePairs;
    assert ("{" + body + "}")[1..] == body + "}";
  }

  lemma {:induction false} LexTotal(a: string, b: string)
    ensures LexLe(a, b) || LexLe(b, a)
  {
    if a != "" && b != "" && a[0] == b[0] { LexTotal(a[1..], b[1..]); }
  }

  lemma {:induction false} LexTransitive(a: string, b: string, c: string)
    requires LexLe(a, b) && LexLe(b, c)
    ensures LexLe(a, c)
  {
    if a != "" && b != "" && c != "" && a[0] == b[0] == c[0] { LexTransitive(a[1..], b[1..], c[1..]); }
  }

  /** Canonical text lists its keys in order. */
  lemma CanonicalKeysSorted(pairs: seq<Pair>)
    requires PlainPairs(pairs)
    ensures ParseObject(CanonicalJson(pairs)).Some? && SortedBy(ParseObject(CanonicalJson(pairs)).value, KeyLe)
  {
    ObjectRoundTrip(pairs);
    KeyLaws();
    SortSorted(pairs, KeyLe);
  }

  lemma KeyLaws()
    ensures Total(KeyLe) && Transitive(KeyLe)
  {
    forall a, b ensures KeyLe(a, b) || KeyLe(b, a) { LexTotal(a.0, b.0); }
    forall a, b, c | KeyLe(a, b) && KeyLe(b, c) ensures KeyLe(a, c) { LexTransitive(a.0, b.0, c.0); }
  }

  lemma FirstIsQuote(pairs: seq<Pair>)
    requires pairs != []
    ensures PrintPairs(pairs) != "" && PrintPairs(pairs)[0] == '"'
  {
  }

  // ----- Receipts

  function StateText(state: OT.State): string {
    match state
    case Intent => "intent"
    case CreatedState => "created"
    case Ready => "ready"
    case CleanupRequested => "cleanup_requested"
    case NotFoundVerified => "not_found_verified"
  }

  function ParseState(s: string): Option<OT.State> {
    if s == "intent" then Some(OT.Intent)
    else if s == "created" then Some(OT.CreatedState)
    else if s == "ready" then Some(OT.Ready)
    else if s == "cleanup_requested" then Some(OT.CleanupRequested)
    else if s == "not_found_verified" then Some(OT.NotFoundVerified)
    else None
  }

  predicate LabelChar(c: char) {
    'a' <= c <= 'z' || '0' <= c <= '9'
  }

  /** One bounded lowercase DNS label. */
  predicate ValidRegion(s: string) {
    && 1 <= |s| <= 63 && LabelChar(s[0]) && LabelChar(s[|s| - 1])
    && forall c | c in s :: LabelChar(c) || c == '-'
  }

  predicate HexChar(c: char) {
    '0' <= c <= '9' || 'a' <= c <= 'f'
  }

  predicate ValidHex(s: string) {
    |s| == 64 && forall c | c in s :: HexChar(c)
  }

  ghost predicate ValidCrypto(crypto: Crypto) {
    forall domain: string, message: string :: ValidHex(crypto.mac(domain, message))
  }

  function UnsignedPayload(r: Receipt): seq<Pair> {
    [("format_version", Number(r.formatVersion)), ("purpose", Text(r.purpose)), ("creating_region", Text(r.region)),
     ("nonce", Text(r.nonce)), ("namespace", Text(r.namespace)), ("state", Text(StateText(r.state))),
     ("credential_tag", Text(r.credentialTag))]
  }

  function DeriveNamespace(crypto: Crypto, nonce: string, region: string, credentialTag: string): string {
    NAMESPACE_PREFIX + crypto.mac("pufferlab-owned-tiny-namespace-v1",
      CanonicalJson([("credential_tag", Text(credentialTag)), ("nonce", Text(nonce)), ("purpose", Text(PURPOSE)),
          ("region", Text(region))]))
  }

  function ReceiptTag(crypto: Crypto, r: Receipt): string {
    crypto.mac("pufferlab-owned-tiny-receipt-v1", CanonicalJson(UnsignedPayload(r)))
  }

  function Payload(r: Receipt): seq<Pair> {
    UnsignedPayload(r) + [("authentication_tag", Text(r.authenticationTag))]
  }

  function EncodeReceipt(r: Receipt): string {
    CanonicalJson(Payload(r))
  }

  /** Well formed, derived and signed under the owner key. */
  predicate Signed(r: Receipt, crypto: Crypto) {
    && r.formatVersion == 1 && r.purpose == PURPOSE && ValidRegion(r.region)
    && ValidHex(r.nonce) && ValidHex(r.credentialTag) && ValidHex(r.authenticationTag)
    && r.namespace == DeriveNamespace(crypto, r.nonce, r.region, r.credentialTag)
    && r.authenticationTag == ReceiptTag(crypto, r)
  }

  function Keys(pairs: seq<Pair>): seq<string> {
    seq(|pairs|, i requires 0 <= i < |pairs| => pairs[i].0)
  }

  /** The dictionary of an object: the last of equal keys wins. */
  function ToMap(pairs: seq<Pair>): map<string, Value> {
    if pairs == [] then map[] else ToMap(pairs[..|pairs| - 1])[pairs[|pairs| - 1].0 := pairs[|pairs| - 1].1]
  }

  function TextAt(fields: map<string, Value>, key: string): string {
    if key in fields && fields[key].Text? then fields[key].text else ""
  }

  /** A receipt read from its fields; a field of the wrong type fails a later check. */
  function FromFields(fields: map<string, Value>, state: OT.State): Receipt {
    var version := if "format_version" in fields && fields["format_version"].Number?
                   then fields["format_version"].number else 0;
    Receipt(version, TextAt(fields, "purpose"), TextAt(fields, "creating_region"), TextAt(fields, "nonce"),
            TextAt(fields, "namespace"), state, TextAt(fields, "credential_tag"), TextAt(fields, "authentication_tag"))
  }

  function DecodeReceipt(raw: string, crypto: Crypto): Result<Receipt, Error> {
    var parsed := ParseObject(raw);
    if parsed.None? || !Distinct(Keys(parsed.value)) then Err(InvalidReceipt)
    else
      var fields := ToMap(parsed.value);
      if fields.Keys != FIELDS then Err(InvalidReceipt)
      else
        var state := ParseState(TextAt(fields, "state"));
        if state.None? then Err(InvalidReceipt)
        else
          var r := FromFields(fields, state.value);
          if !Signed(r, crypto) || raw != EncodeReceipt(r) then Err(InvalidReceipt) else Ok(r)
  }

  /** The hook that builds an object's dictionary and notices a repeated key. */
  method PairsHook(pairs: seq<Pair>) returns (fields: map<string, Value>, duplicate: bool)
    ensures fields == ToMap(pairs)
    ensures duplicate <==> !Distinct(Keys(pairs))
    ensures duplicate <==> exists i, j :: 0 <= i < j < |pairs| && pairs[i].0 == pairs[j].0
    ensures forall i | 0 <= i < |pairs| ::
              && pairs[i].0 in fields
              && ((forall j | i < j < |pairs| :: pairs[j].0 != pairs[i].0) ==> fields[pairs[i].0] == pairs[i].1)
  {
    hide Keys, ToMap, Distinct;
    fields, duplicate := map[], false;
    NoPairs();
    for i := 0 to |pairs|
      invariant fields == ToMap(pairs[..i]) && fields.Keys == ToSet(Keys(pairs[..i]))
      invariant duplicate <==> !Distinct(Keys(pairs[..i]))
    {
      var (key, value) := pairs[i];
      PairAppended(pairs, i);
      KeyAppended(Keys(pairs[..i]), key);
      if key in fields { duplicate := true; }
      fields := fields[key := value];
    }
    assert pairs[..|pairs|] == pairs;
    RepeatedKey(pairs);
    forall i | 0 <= i < |pairs|
      ensures pairs[i].0 in fields
      ensures (forall j | i < j < |pairs| :: pairs[j].0 != pairs[i].0) ==> fields[pairs[i].0] == pairs[i].1
    {
      LastKeyWins(pairs, i);
    }
  }

  lemma RepeatedKey(pairs: seq<Pair>)
    ensures !Distinct(Keys(pairs)) <==> exists i, j :: 0 <= i < j < |pairs| && pairs[i].0 == pairs[j].0
  {
    if !Distinct(Keys(pairs)) {
      var i, j :| 0 <= i < j < |pairs| && Keys(pairs)[i] == Keys(pairs)[j];
      assert pairs[i].0 == pairs[j].0;
    }
    if i, j :| 0 <= i < j < |pairs| && pairs[i].0 == pairs[j].0 {
      assert Keys(pairs)[i] == Keys(pairs)[j];
    }
  }

  lemma {:induction false} LastKeyWins(pairs: seq<Pair>, i: nat)
    requires i < |pairs|
    ensures pairs[i].0 in ToMap(pairs)
    ensures (forall j | i < j < |pairs| :: pairs[j].0 != pairs[i].0) ==> ToMap(pairs)[pairs[i].0] == pairs[i].1
  {
    if i < |pairs| - 1 {
      LastKeyWins(pairs[..|pairs| - 1], i);
    }
  }

  /** Decode as the runtime does, noticing repeated keys while the dictionary is built. */
  method Decode(raw: string, crypto: Crypto) returns (r: Result<Receipt, Error>)
    ensures r == DecodeReceipt(raw, crypto)
  {
    hide ParseObject, Signed, EncodeReceipt, FromFields, ParseState, ToMap, Keys;
    var parsed := ParseObject(raw);
    if parsed.None? { return Err(InvalidReceipt); }
    var fields, duplicate := PairsHook(parsed.value);
    if duplicate || fields.Keys != FIELDS { return Err(InvalidReceipt); }
    var state := ParseState(TextAt(fields, "state"));
    if state.None? { return Err(InvalidReceipt); }
    var receipt := FromFields(fields, state.value);
    if !Signed(receipt, crypto) || raw != EncodeReceipt(receipt) { return Err(InvalidReceipt); }
    return Ok(receipt);
  }

  lemma NoPairs()
    ensures ToMap([]) == map[] && Keys([]) == [] && Distinct(Keys([]))
  {
  }

  lemma PairAppended(pairs: seq<Pair>, i: nat)
    requires i < |pairs|
    ensures ToMap(pairs[..i + 1]) == ToMap(pairs[..i])[pairs[i].0 := pairs[i].1]
    ensures Keys(pairs[..i + 1]) == Keys(pairs[..i]) + [pairs[i].0]
  {
    assert pairs[..i + 1][..i] == pairs[..i];
  }

  lemma KeyAppended(keys: seq<string>, key: string)
    ensures ToSet(keys + [key]) == ToSet(keys) + {key}
    ensures Distinct(keys + [key]) <==> Distinct(keys) && key !in ToSet(keys)
  {
    var longer := keys + [key];
    if Distinct(longer) {
      forall i, j | 0 <= i < j < |keys| ensures keys[i] != keys[j] { assert longer[i] != longer[j]; }
      forall i | 0 <= i < |keys| ensures keys[i] != key { assert longer[i] != longer[|keys|]; }
    }
  }

  lemma {:induction false} ToMapOfDistinct(pairs: seq<Pair>)
    requires Distinct(Keys(pairs))
    ensures ToMap(pairs).Keys == ToSet(Keys(pairs))
    ensures forall pair | pair in pairs :: pair.0 in ToMap(pairs) && ToMap(pairs)[pair.0] == pair.1
  {
    if pairs != [] {
      var rest, last := pairs[..|pairs| - 1], pairs[|pairs| - 1];
      assert pairs == rest + [last];
      assert Keys(pairs) == Keys(rest) + [last.0];
      KeyAppended(Keys(rest), last.0);
      ToMapOfDistinct(rest);
      forall pair | pair in pairs ensures pair.0 in ToMap(pairs) && ToMap(pairs)[pair.0] == pair.1 {
        if pair in rest {
          var i :| 0 <= i < |rest| && rest[i] == pair;
          assert Keys(rest)[i] == pair.0 && pair.0 in ToSet(Keys(rest));
        }
      }
    }
  }

  lemma PayloadKeys(r: Receipt)
    ensures Keys(Payload(r)) == ["format_version", "purpose", "creating_region", "nonce", "namespace", "state",
                                 "credential_tag", "authentication_tag"]
    ensures Distinct(Keys(Payload(r))) && ToSet(Keys(Payload(r))) == FIELDS
  {
    var keys := Keys(Payload(r));
    assert |keys[0]| == 14 && |keys[1]| == 7 && |keys[2]| == 15 && |keys[3]| == 5 && |keys[4]| == 9 && |keys[5]| == 5
           && |keys[6]| == 14 && |keys[7]| == 18;
    assert keys[0][0] == 'f' && keys[6][0] == 'c' && keys[3][0] == 'n' && keys[5][0] == 's';
  }

  lemma KeysPermutation(a: seq<Pair>, b: seq<Pair>)
    requires multiset(a) == multiset(b) && Distinct(Keys(a))
    ensures Distinct(Keys(b)) && ToSet(Keys(b)) == ToSet(Keys(a))
  {
    PermutationMembers(a, b);
    forall i, j | 0 <= i < j < |a| ensures a[i] != a[j] { assert Keys(a)[i] != Keys(a)[j]; }
    DistinctPermutation(a, b);
    forall i, j | 0 <= i < j < |b| ensures b[i].0 != b[j].0 {
      assert b[i] in a && b[j] in a && b[i] != b[j];
      var k :| 0 <= k < |a| && a[k] == b[i];
      var l :| 0 <= l < |a| && a[l] == b[j];
      assert Keys(a)[k] != Keys(a)[l];
    }
    forall key ensures key in Keys(a) <==> key in Keys(b) {
      if key in Keys(a) {
        var i :| 0 <= i < |a| && Keys(a)[i] == key;
        assert a[i] in b;
        var j :| 0 <= j < |b| && b[j] == a[i];
        assert Keys(b)[j] == key;
      }
      if key in Keys(b) {
        var j :| 0 <= j < |b| && Keys(b)[j] == key;
        assert b[j] in a;
        var i :| 0 <= i < |a| && a[i] == b[j];
        assert Keys(a)[i] == key;
      }
    }
  }

  lemma NamesPlain()
    ensures PlainText("format_version") && PlainText("purpose") && PlainText("creating_region") && PlainText("nonce")
    ensures PlainText("namespace") && PlainText("state") && PlainText("credential_tag")
              && PlainText("authentication_tag")
  {
  }

  lemma HexPlain(s: string)
    requires ValidHex(s)
    ensures PlainText(s)
  {
  }

  lemma StatePlain(state: OT.State)
    ensures PlainText(StateText(state))
  {
  }

  lemma NamespacePlain(crypto: Crypto, nonce: string, region: string, credentialTag: string)
    requires ValidCrypto(crypto)
    ensures PlainText(DeriveNamespace(crypto, nonce, region, credentialTag))
  {
    hide CanonicalJson, ValidHex, PlainText;
    var binding := CanonicalJson([("credential_tag", Text(credentialTag)), ("nonce", Text(nonce)),
                                 ("purpose", Text(PURPOSE)), ("region", Text(region))]);
    assert ValidHex(crypto.mac("pufferlab-owned-tiny-namespace-v1", binding));
    HexPlain(crypto.mac("pufferlab-owned-tiny-namespace-v1", binding));
    PrefixPlain(crypto.mac("pufferlab-owned-tiny-namespace-v1", binding));
  }

  lemma PrefixPlain(s: string)
    requires PlainText(s)
    ensures PlainText(NAMESPACE_PREFIX + s)
  {
  }

  lemma RegionPlain(s: string)
    requires ValidRegion(s)
    ensures PlainText(s) && PlainText(PURPOSE)
  {
  }

  predicate PlainPair(pair: Pair) {
    PlainText(pair.0) && (pair.1.Text? ==> PlainText(pair.1.text))
  }

  lemma EightPlain(a: Pair, b: Pair, c: Pair, d: Pair, e: Pair, f: Pair, g: Pair, h: Pair)
    requires PlainPair(a) && PlainPair(b) && PlainPair(c) && PlainPair(d) && PlainPair(e) && PlainPair(f)
               && PlainPair(g) && PlainPair(h)
    ensures PlainPairs([a, b, c, d, e, f, g] + [h])
  {
    hide PlainText;
  }

  lemma ValuesPlain(r: Receipt, crypto: Crypto)
    requires ValidCrypto(crypto) && Signed(r, crypto)
    ensures PlainText(r.purpose) && PlainText(r.region) && PlainText(r.nonce) && PlainText(r.namespace)
    ensures PlainText(r.credentialTag) && PlainText(r.authenticationTag) && PlainText(StateText(r.state))
  {
    hide PlainText, ValidHex, ValidRegion, ReceiptTag, DeriveNamespace, StateText;
    HexPlain(r.nonce);
    HexPlain(r.credentialTag);
    HexPlain(r.authenticationTag);
    RegionPlain(r.region);
    StatePlain(r.state);
    NamespacePlain(crypto, r.nonce, r.region, r.credentialTag);
  }

  lemma PayloadPlain(r: Receipt, crypto: Crypto)
    requires ValidCrypto(crypto) && Signed(r, crypto)
    ensures PlainPairs(Payload(r))
  {
    hide PlainText, PlainPairs, Signed, StateText;
    NamesPlain();
    ValuesPlain(r, crypto);
    EightPlain(("format_version", Number(r.formatVersion)), ("purpose", Text(r.purpose)),
        ("creating_region", Text(r.region)),
               ("nonce", Text(r.nonce)), ("namespace", Text(r.namespace)), ("state", Text(StateText(r.state))),
               ("credential_tag", Text(r.credentialTag)), ("authentication_tag", Text(r.authenticationTag)));
  }

  /** Where each field of a payload is found again. */
  lemma PayloadLookups(r: Receipt, pairs: seq<Pair>)
    requires multiset(pairs) == multiset(Payload(r))
    ensures Distinct(Keys(pairs)) && ToMap(pairs).Keys == FIELDS
    ensures forall pair | pair in Payload(r) :: pair.0 in ToMap(pairs) && ToMap(pairs)[pair.0] == pair.1
  {
    hide Payload, Keys, ToMap;
    PayloadKeys(r);
    KeysPermutation(Payload(r), pairs);
    ToMapOfDistinct(pairs);
    PermutationMembers(Payload(r), pairs);
  }

  lemma FieldsOfPayload(r: Receipt, pairs: seq<Pair>)
    requires multiset(pairs) == multiset(Payload(r))
    ensures Distinct(Keys(pairs)) && ToMap(pairs).Keys == FIELDS
    ensures TextAt(ToMap(pairs), "state") == StateText(r.state) && FromFields(ToMap(pairs), r.state) == r
  {
    PayloadLookups(r, pairs);
    PayloadHas(r);
    hide Payload, Keys, ToMap, StateText;
    var fields := ToMap(pairs);
    assert "format_version" in fields && fields["format_version"] == Number(r.formatVersion);
    assert TextAt(fields, "purpose") == r.purpose;
    assert TextAt(fields, "creating_region") == r.region;
    assert TextAt(fields, "nonce") == r.nonce;
    assert TextAt(fields, "namespace") == r.namespace;
    assert TextAt(fields, "credential_tag") == r.credentialTag;
    assert TextAt(fields, "authentication_tag") == r.authenticationTag;
  }

  lemma PayloadHas(r: Receipt)
    ensures ("format_version", Number(r.formatVersion)) in Payload(r) && ("purpose", Text(r.purpose)) in Payload(r)
    ensures ("creating_region", Text(r.region)) in Payload(r) && ("nonce", Text(r.nonce)) in Payload(r)
    ensures ("namespace", Text(r.namespace)) in Payload(r) && ("state", Text(StateText(r.state))) in Payload(r)
    ensures ("credential_tag", Text(r.credentialTag)) in Payload(r)
              && ("authentication_tag", Text(r.authenticationTag)) in Payload(r)
  {
    hide StateText;
    var p := Payload(r);
    assert p[0] in p && p[1] in p && p[2] in p && p[3] in p && p[4] in p && p[5] in p && p[6] in p && p[7] in p;
  }

  lemma StateRoundTrip(state: OT.State)
    ensures ParseState(StateText(state)) == Some(state)
  {
    assert |"intent"| == 6 && |"created"| == 7 && |"ready"| == 5 && |"cleanup_requested"| == 17
        && |"not_found_verified"| == 18;
  }

  lemma DecodedIsSigned(raw: string, r: Receipt, crypto: Crypto)
    requires DecodeReceipt(raw, crypto) == Ok(r)
    ensures Signed(r, crypto) && raw == EncodeReceipt(r)
  {
    hide CanonicalJson, ParseObject, Signed, Keys, ToMap, FromFields, TextAt, ParseState, Payload;
  }

  /** Decoding accepts exactly the encodings of signed receipts, and returns the receipt encoded. */
  lemma DecodeExact(raw: string, r: Receipt, crypto: Crypto)
    requires ValidCrypto(crypto)
    ensures DecodeReceipt(raw, crypto) == Ok(r) <==> Signed(r, crypto) && raw == EncodeReceipt(r)
  {
    hide CanonicalJson, ParseObject, Signed, Keys, ToMap, FromFields, TextAt, StateText, ParseState, Sort, Payload;
    if Signed(r, crypto) && raw == EncodeReceipt(r) {
      PayloadPlain(r, crypto);
      ObjectRoundTrip(Payload(r));
      FieldsOfPayload(r, Sort(Payload(r), KeyLe));
      StateRoundTrip(r.state);
    } else if DecodeReceipt(raw, crypto) == Ok(r) {
      DecodedIsSigned(raw, r, crypto);
    }
  }

  /** Exactly what a text must hold to be accepted: the eight fields in canonical form, of which the namespace is
      derived and the tag computed under the owner key. */
  lemma DecodeAuthentic(raw: string, r: Receipt, crypto: Crypto)
    requires ValidCrypto(crypto)
    ensures DecodeReceipt(raw, crypto) == Ok(r) <==>
      && raw == EncodeReceipt(r)
      && r.formatVersion == 1 && r.purpose == "pufferlab-owned-tiny"
      && 1 <= |r.region| <= 63 && r.region[0] != '-' && r.region[|r.region| - 1] != '-'
      && (forall c | c in r.region :: 'a' <= c <= 'z' || '0' <= c <= '9' || c == '-')
      && |r.nonce| == |r.credentialTag| == |r.authenticationTag| == 64
      && (forall c | c in r.nonce + r.credentialTag + r.authenticationTag :: '0' <= c <= '9' || 'a' <= c <= 'f')
      && r.namespace == "pufferlab-tiny-" + crypto.mac("pufferlab-owned-tiny-namespace-v1", CanonicalJson([
           ("credential_tag", Text(r.credentialTag)), ("nonce", Text(r.nonce)),
           ("purpose", Text("pufferlab-owned-tiny")), ("region", Text(r.region))]))
      && r.authenticationTag == crypto.mac("pufferlab-owned-tiny-receipt-v1", CanonicalJson([
           ("format_version", Number(1)), ("purpose", Text("pufferlab-owned-tiny")),
           ("creating_region", Text(r.region)), ("nonce", Text(r.nonce)), ("namespace", Text(r.namespace)),
           ("state", Text(match r.state
                          case Intent => "intent"
                          case CreatedState => "created"
                          case Ready => "ready"
                          case CleanupRequested => "cleanup_requested"
                          case NotFoundVerified => "not_found_verified")),
           ("credential_tag", Text(r.credentialTag))]))
  {
    hide CanonicalJson, DecodeReceipt, EncodeReceipt, ValidHex, ValidRegion, UnsignedPayload;
    DecodeExact(raw, r, crypto);
    HexMeans(r.nonce);
    HexMeans(r.credentialTag);
    HexMeans(r.authenticationTag);
    RegionMeans(r.region);
    if r.formatVersion == 1 && r.purpose == PURPOSE { PayloadMeans(r); }
    assert forall c :: c in r.nonce + r.credentialTag + r.authenticationTag <==>
                       c in r.nonce || c in r.credentialTag || c in r.authenticationTag;
  }

  lemma HexMeans(s: string)
    ensures ValidHex(s) <==> |s| == 64 && forall c | c in s :: '0' <= c <= '9' || 'a' <= c <= 'f'
  {
  }

  lemma RegionMeans(s: string)
    ensures ValidRegion(s) <==>
              && 1 <= |s| <= 63 && s[0] != '-' && s[|s| - 1] != '-'
              && forall c | c in s :: 'a' <= c <= 'z' || '0' <= c <= '9' || c == '-'
  {
    assert |s| > 0 ==> s[0] in s && s[|s| - 1] in s;
  }

  lemma PayloadMeans(r: Receipt)
    requires r.formatVersion == 1 && r.purpose == "pufferlab-owned-tiny"
    ensures UnsignedPayload(r) == [
              ("format_version", Number(1)), ("purpose", Text("pufferlab-owned-tiny")),
              ("creating_region", Text(r.region)), ("nonce", Text(r.nonce)), ("namespace", Text(r.namespace)),
              ("state", Text(match r.state
                             case Intent => "intent"
                             case CreatedState => "created"
                             case Ready => "ready"
                             case CleanupRequested => "cleanup_requested"
                             case NotFoundVerified => "not_found_verified")),
              ("credential_tag", Text(r.credentialTag))]
  {
  }

  lemma KeyAntisymmetric(a: Pair, b: Pair)
    requires KeyLe(a, b) && KeyLe(b, a)
    ensures a.0 == b.0
  {
    LexAntisymmetric(a.0, b.0);
  }

  lemma LexAntisymmetric(a: string, b: string)
    requires LexLe(a, b) && LexLe(b, a)
    ensures a == b
  {
    if a != "" && b != "" && a[0] == b[0] { LexAntisymmetric(a[1..], b[1..]); }
  }

  /** Canonical text is the fields in the order of their keys, whatever order they were given in. */
  lemma CanonicalForm(pairs: seq<Pair>, sorted: seq<Pair>)
    requires pairs != [] && sorted != [] && multiset(pairs) == multiset(sorted) && Distinct(Keys(pairs))
               && SortedBy(sorted, KeyLe)
    ensures CanonicalJson(pairs) == "{" + PrintPairs(sorted) + "}"
  {
    hide PrintPairs, KeyLe;
    KeyLaws();
    SortSorted(pairs, KeyLe);
    var printed := Sort(pairs, KeyLe);
    KeysPermutation(pairs, printed);
    forall i, j | 0 <= i < |printed| && 0 <= j < |printed| && KeyLe(printed[i], printed[j])
        && KeyLe(printed[j], printed[i])
      ensures printed[i] == printed[j]
    {
      KeyAntisymmetric(printed[i], printed[j]);
      assert Keys(printed)[i] == Keys(printed)[j];
    }
    SortedUnique(printed, sorted, KeyLe);
  }

  lemma LexFirst(a: string, b: string)
    requires a != "" && b != "" && a[0] < b[0]
    ensures LexLe(a, b)
  {
  }

  lemma LexNext(a: string, b: string)
    requires a != "" && b != "" && a[0] == b[0] && LexLe(a[1..], b[1..])
    ensures LexLe(a, b)
  {
  }

  lemma SortedNames(sorted: seq<Pair>)
    requires Keys(sorted) == ["authentication_tag", "creating_region", "credential_tag", "format_version",
                              "namespace", "nonce", "purpose", "state"]
    ensures SortedBy(sorted, KeyLe)
  {
    hide LexLe;
    var names := Keys(sorted);
    assert names[0][0] == 'a' && names[1][0] == names[2][0] == 'c' && names[3][0] == 'f'
           && names[4][0] == names[5][0] == 'n' && names[6][0] == 'p' && names[7][0] == 's';
    SameInitials();
    forall i, j | 0 <= i < j < 8 ensures LexLe(names[i], names[j]) {
      if names[i][0] != names[j][0] { LexFirst(names[i], names[j]); }
    }
  }

  lemma SameInitials()
    ensures LexLe("namespace", "nonce") && LexLe("creating_region", "credential_tag")
  {
    hide LexLe;
    LexFirst("amespace", "once");
    assert "namespace"[1..] == "amespace" && "nonce"[1..] == "once";
    LexNext("namespace", "nonce");
    LexFirst("ating_region", "dential_tag");
    assert "eating_region"[1..] == "ating_region" && "edential_tag"[1..] == "dential_tag";
    LexNext("eating_region", "edential_tag");
    assert "reating_region"[1..] == "eating_region" && "redential_tag"[1..] == "edential_tag";
    LexNext("reating_region", "redential_tag");
    assert "creating_region"[1..] == "reating_region" && "credential_tag"[1..] == "redential_tag";
    LexNext("creating_region", "credential_tag");
  }

  lemma {:induction false} JoinPairs(a: seq<Pair>, b: seq<Pair>)
    requires a != [] && b != []
    ensures PrintPairs(a + b) == PrintPairs(a) + "," + PrintPairs(b)
  {
    hide PrintPair;
    if |a| == 1 {
      assert (a + b)[1..] == b;
    } else {
      assert (a + b)[1..] == a[1..] + b;
      JoinPairs(a[1..], b);
    }
  }

  lemma JoinFour(a: Pair, b: Pair, c: Pair, d: Pair)
    ensures PrintPairs([a, b, c, d]) == PrintPair(a) + "," + PrintPair(b) + "," + PrintPair(c) + "," + PrintPair(d)
  {
    hide PrintPair, PrintPairs;
    JoinPairs([a, b, c], [d]);
    JoinPairs([a, b], [c]);
    JoinPairs([a], [b]);
    JoinOne(a);
    JoinOne(b);
    JoinOne(c);
    JoinOne(d);
    assert [a, b, c] + [d] == [a, b, c, d] && [a, b] + [c] == [a, b, c] && [a] + [b] == [a, b];
  }

  lemma JoinOne(pair: Pair)
    ensures PrintPairs([pair]) == PrintPair(pair)
  {
  }

  /** The text of a receipt: eight fields in key order, without spaces. */
  lemma WireForm(r: Receipt)
    ensures var first := PrintPair(("authentication_tag", Text(r.authenticationTag)))
                         + "," + PrintPair(("creating_region", Text(r.region)))
                         + "," + PrintPair(("credential_tag", Text(r.credentialTag)))
                         + "," + PrintPair(("format_version", Number(r.formatVersion)));
            var last := PrintPair(("namespace", Text(r.namespace)))
                        + "," + PrintPair(("nonce", Text(r.nonce)))
                        + "," + PrintPair(("purpose", Text(r.purpose)))
                        + "," + PrintPair(("state", Text(StateText(r.state))));
            EncodeReceipt(r) == "{" + first + "," + last + "}"
  {
    hide PrintPair, PrintPairs, StateText, CanonicalJson, Payload;
    var p := Payload(r);
    PayloadItems(r);
    var first, last := [p[7], p[2], p[6], p[0]], [p[4], p[3], p[1], p[5]];
    PayloadArranged(r);
    CanonicalForm(p, first + last);
    JoinPairs(first, last);
    JoinFour(p[7], p[2], p[6], p[0]);
    JoinFour(p[4], p[3], p[1], p[5]);
  }

  lemma PayloadItems(r: Receipt)
    ensures var p := Payload(r);
            && |p| == 8 && p[0] == ("format_version", Number(r.formatVersion)) && p[1] == ("purpose", Text(r.purpose))
            && p[2] == ("creating_region", Text(r.region)) && p[3] == ("nonce", Text(r.nonce))
            && p[4] == ("namespace", Text(r.namespace)) && p[5] == ("state", Text(StateText(r.state)))
            && p[6] == ("credential_tag", Text(r.credentialTag))
            && p[7] == ("authentication_tag", Text(r.authenticationTag))
  {
  }

  lemma PayloadArranged(r: Receipt)
    requires |Payload(r)| == 8
    ensures var p := Payload(r); var sorted := [p[7], p[2], p[6], p[0]] + [p[4], p[3], p[1], p[5]];
            multiset(p) == multiset(sorted) && Distinct(Keys(p)) && SortedBy(sorted, KeyLe)
  {
    hide Payload, Keys, SortedBy, KeyLe;
    var p := Payload(r);
    var sorted := [p[7], p[2], p[6], p[0]] + [p[4], p[3], p[1], p[5]];
    PayloadKeys(r);
    ArrangeEight(p, sorted);
    KeysArranged(p, sorted);
    SortedNames(sorted);
  }

  lemma KeysArranged(p: seq<Pair>, sorted: seq<Pair>)
    requires |p| == 8 && sorted == [p[7], p[2], p[6], p[0]] + [p[4], p[3], p[1], p[5]]
    ensures Keys(sorted) == [Keys(p)[7], Keys(p)[2], Keys(p)[6], Keys(p)[0], Keys(p)[4], Keys(p)[3], Keys(p)[1],
                             Keys(p)[5]]
  {
  }

  lemma ArrangeEight(p: seq<Pair>, sorted: seq<Pair>)
    requires |p| == 8 && Distinct(Keys(p)) && sorted == [p[7], p[2], p[6], p[0]] + [p[4], p[3], p[1], p[5]]
    ensures multiset(p) == multiset(sorted)
  {
    forall i, j | 0 <= i < j < 8 ensures p[i].0 != p[j].0 { assert Keys(p)[i] != Keys(p)[j]; }
    hide Keys;
    assert sorted[0] == p[7] && sorted[1] == p[2] && sorted[2] == p[6] && sorted[3] == p[0]
           && sorted[4] == p[4] && sorted[5] == p[3] && sorted[6] == p[1] && sorted[7] == p[5];
    assert Distinct(p) && Distinct(sorted);
    forall x ensures x in p <==> x in sorted {}
    assert ToSet(p) == ToSet(sorted);
    SetArrangements(p, sorted);
  }

  /** How one field is written. */
  lemma PrintedPair(name: string, text: string)
    ensures PrintPair((name, Text(text))) == "\"" + name + "\":\"" + text + "\""
    ensures PrintPair((name, Number(1))) == "\"" + name + "\":1"
  {
    assert Digit(1) == '1';
  }

  /** Different signed receipts have different encodings. */
  lemma EncodingUnique(a: Receipt, b: Receipt, crypto: Crypto)
    requires ValidCrypto(crypto) && Signed(a, crypto) && Signed(b, crypto) && EncodeReceipt(a) == EncodeReceipt(b)
    ensures a == b
  {
    DecodeExact(EncodeReceipt(a), a, crypto);
    DecodeExact(EncodeReceipt(a), b, crypto);
  }

  /** A torn write is never accepted: no proper prefix of an encoding decodes. */
  lemma TornReceiptRefused(r: Receipt, crypto: Crypto, n: nat)
    requires ValidCrypto(crypto) && Signed(r, crypto) && n < |EncodeReceipt(r)|
    ensures DecodeReceipt(EncodeReceipt(r)[..n], crypto).Err?
  {
    hide DecodeReceipt, EncodeReceipt, Signed;
    var whole := EncodeReceipt(r);
    var torn := whole[..n];
    assert whole == torn + whole[n..] && whole + "" == whole;
    EncodingStops(r, crypto, "");
    if DecodeReceipt(torn, crypto).Ok? {
      var other := DecodeReceipt(torn, crypto).value;
      DecodeExact(torn, other, crypto);
      EncodingStops(other, crypto, whole[n..]);
    }
  }

  lemma EncodingStops(r: Receipt, crypto: Crypto, rest: string)
    requires ValidCrypto(crypto) && Signed(r, crypto)
    ensures ParseObject(EncodeReceipt(r) + rest).Some? <==> rest == ""
  {
    hide Signed, CanonicalJson, ParseObject, PlainPairs, Sort;
    PayloadPlain(r, crypto);
    assert Payload(r) != [];
    hide Payload;
    PrefixStops(Payload(r), rest);
    if rest == "" {
      ObjectRoundTrip(Payload(r));
      assert EncodeReceipt(r) + "" == EncodeReceipt(r);
    }
  }

  /** Text after a complete object is never absorbed by the object. */
  lemma PrefixStops(pairs: seq<Pair>, rest: string)
    requires pairs != [] && PlainPairs(pairs)
    ensures ParseObject(CanonicalJson(pairs) + rest).Some? ==> rest == ""
  {
    hide ParsePairs, PrintPairs, Sort;
    var sorted := Sort(pairs, KeyLe);
    PermutationMembers(pairs, sorted);
    PairsRoundTrip(sorted, rest);
    assert (CanonicalJson(pairs) + rest)[1..] == PrintPairs(sorted) + "}" + rest;
    FirstIsQuote(sorted);
  }

  // ----- Lifecycle

  function Resigned(r: Receipt, crypto: Crypto): Receipt {
    r.(authenticationTag := ReceiptTag(crypto, r))
  }

  function CreateIntent(crypto: Crypto, region: string, nonce: string, apiKey: string): Receipt {
    var credentialTag := crypto.mac("pufferlab-owned-tiny-credential-v1", apiKey);
    Resigned(Receipt(1, PURPOSE, region, nonce, DeriveNamespace(crypto, nonce, region, credentialTag), OT.Intent,
        credentialTag, ""), crypto)
  }

  function Transition(r: Receipt, state: OT.State, crypto: Crypto): Option<Receipt> {
    if state == r.state then Some(r)
    else if !OT.Allowed(r.state, state) then None
    else Some(Resigned(r.(state := state, authenticationTag := ""), crypto))
  }

  /** A transition is answered exactly if it stands still or is allowed; the answer is a signed receipt in the
      state asked for, of the same installation. */
  lemma TransitionMeans(r: Receipt, state: OT.State, crypto: Crypto)
    requires ValidCrypto(crypto) && Signed(r, crypto)
    ensures Transition(r, state, crypto).Some? <==> state == r.state || OT.Allowed(r.state, state)
    ensures Transition(r, state, crypto).Some? ==>
              var next := Transition(r, state, crypto).value;
              && next.state == state && Signed(next, crypto)
              && next.nonce == r.nonce && next.region == r.region
              && next.namespace == r.namespace && next.credentialTag == r.credentialTag
  {
    hide DeriveNamespace, ReceiptTag, ValidRegion, ValidHex;
    var next := Transition(r, state, crypto);
    if next.Some? && next.value != r { ResignedIsSigned(r.(state := state, authenticationTag := ""), crypto); }
  }

  /** Each state is the one before it or allowed after it. */
  predicate Lawful(from: OT.State, states: seq<OT.State>) {
    && (states != [] ==> states[0] == from || OT.Allowed(from, states[0]))
    && forall i | 0 < i < |states| :: states[i] == states[i - 1] || OT.Allowed(states[i - 1], states[i])
  }

  lemma LawfulTail(from: OT.State, states: seq<OT.State>)
    requires states != []
    ensures Lawful(from, states) <==>
            (states[0] == from || OT.Allowed(from, states[0])) && Lawful(states[0], states[1..])
  {
    var rest := states[1..];
    assert forall i | 0 < i < |rest| :: rest[i] == states[i + 1] && rest[i - 1] == states[i];
    if Lawful(states[0], rest) {
      forall i | 0 < i < |states| ensures states[i] == states[i - 1] || OT.Allowed(states[i - 1], states[i]) {
        if i > 1 { assert rest[i - 1] == rest[i - 2] || OT.Allowed(rest[i - 2], rest[i - 1]); }
      }
    }
  }

  /** The tag signs everything but itself. */
  lemma ResignedIsSigned(r: Receipt, crypto: Crypto)
    requires ValidCrypto(crypto)
    requires r.formatVersion == 1 && r.purpose == PURPOSE && ValidRegion(r.region) && ValidHex(r.nonce)
               && ValidHex(r.credentialTag)
    requires r.namespace == DeriveNamespace(crypto, r.nonce, r.region, r.credentialTag)
    ensures Signed(Resigned(r, crypto), crypto)
  {
    hide CanonicalJson, DeriveNamespace, ValidRegion;
    assert UnsignedPayload(Resigned(r, crypto)) == UnsignedPayload(r);
    assert ValidHex(crypto.mac("pufferlab-owned-tiny-receipt-v1", CanonicalJson(UnsignedPayload(r))));
  }

  /** A lifecycle starts in INTENT and can be followed exactly along allowed states. Its last receipt is in the
      last state asked for, decodable, and keeps nonce, region, namespace and credential. */
  lemma {:induction false} LifecycleKeepsIdentity(crypto: Crypto, region: string, nonce: string, apiKey: string,
                                                  states: seq<OT.State>)
    requires ValidCrypto(crypto) && ValidRegion(region) && ValidHex(nonce)
    ensures var first := CreateIntent(crypto, region, nonce, apiKey);
            var last := Follow(first, states, crypto);
            && first.state == OT.Intent && first.region == region && first.nonce == nonce
            && first.credentialTag == crypto.mac("pufferlab-owned-tiny-credential-v1", apiKey)
            && (last.Some? <==> Lawful(OT.Intent, states))
            && (last.Some? ==>
              && last.value.state == (if states == [] then OT.Intent else states[|states| - 1])
              && Signed(last.value, crypto) && DecodeReceipt(EncodeReceipt(last.value), crypto) == Ok(last.value)
              && last.value.nonce == first.nonce && last.value.region == first.region
              && last.value.namespace == first.namespace && last.value.credentialTag == first.credentialTag)
  {
    hide EncodeReceipt, DecodeReceipt, CanonicalJson, UnsignedPayload, ValidRegion, ValidHex, Follow;
    var first := CreateIntent(crypto, region, nonce, apiKey);
    assert ValidHex(crypto.mac("pufferlab-owned-tiny-credential-v1", apiKey));
    ResignedIsSigned(first.(authenticationTag := ""), crypto);
    assert Resigned(first.(authenticationTag := ""), crypto) == first by { SamePayload(first); }
    FollowKeeps(first, states, crypto);
    var last := Follow(first, states, crypto);
    if last.Some? { DecodeExact(EncodeReceipt(last.value), last.value, crypto); }
  }

  lemma SamePayload(r: Receipt)
    ensures UnsignedPayload(r.(authenticationTag := "")) == UnsignedPayload(r)
  {
  }

  /** The receipt after a sequence of transitions, if all of them are allowed. */
  function Follow(r: Receipt, states: seq<OT.State>, crypto: Crypto): Option<Receipt>
    decreases |states|
  {
    if states == [] then Some(r)
    else
      var next := Transition(r, states[0], crypto);
      if next.None? then None else Follow(next.value, states[1..], crypto)
  }

  lemma {:induction false} FollowKeeps(r: Receipt, states: seq<OT.State>, crypto: Crypto)
    requires ValidCrypto(crypto) && Signed(r, crypto)
    ensures var last := Follow(r, states, crypto);
            && (last.Some? <==> Lawful(r.state, states))
            && (last.Some? ==>
              && last.value.state == (if states == [] then r.state else states[|states| - 1])
              && Signed(last.value, crypto)
              && last.value.nonce == r.nonce && last.value.region == r.region
              && last.value.namespace == r.namespace && last.value.credentialTag == r.credentialTag)
    decreases |states|
  {
    hide Transition, Signed, Lawful;
    if states == [] {
      NothingIsLawful(r.state);
    } else {
      LawfulTail(r.state, states);
      TransitionMeans(r, states[0], crypto);
      var next := Transition(r, states[0], crypto);
      if next.Some? { FollowKeeps(next.value, states[1..], crypto); }
    }
  }

  lemma NothingIsLawful(from: OT.State)
    ensures Lawful(from, [])
  {
  }
}
