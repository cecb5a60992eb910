/**
 * The driver's booking history: the Vietnamese status label, the status colour,
 * and the request URL built from the three filters.
 */
module BookingHistory {
  import opened JsValues

  // ---------------------------------------------------------------- status

  /** The translation table, keyed by lower-case status. */
  const StatusVi: map<string, string> := map[
    "reserved" := "Đặt trước",
    "reverse" := "Đặt trước",
    "expired" := "Hết hạn",
    "completed" := "Hoàn thành",
    "complete" := "Hoàn thành"
  ]

  /** `String(s || '').toLowerCase()`, the lookup key both mappings use. */
  function StatusKey(v: Value): string {
    Lower(ToStr(Or(v, Str(""))))
  }

  /**
   * `toViStatus` with the table read as a plain dictionary: a translated label
   * for the five keys; otherwise the status itself, or "-" when it is falsy.
   */
  function ToViStatus(v: Value): (r: Value)
    ensures r.Str? || Truthy(r)
    ensures StatusKey(v) in StatusVi ==> r == Str(StatusVi[StatusKey(v)])
    ensures StatusKey(v) !in StatusVi && Truthy(v) ==> r == v
    ensures !Truthy(v) ==> r == Str("-")
  {
    var key := StatusKey(v);
    if key in StatusVi then Str(StatusVi[key]) else Or(v, Str("-"))
  }

  const CompletedColor := "#10B981"
  const ExpiredColor := "#EF4444"
  const ReservedColor := "#F59E0B"
  const DefaultColor := "#111827"

  /** The colour that goes with each Vietnamese label. */
  const LabelColor: map<string, string> := map[
    "Đặt trước" := ReservedColor,
    "Hết hạn" := ExpiredColor,
    "Hoàn thành" := CompletedColor
  ]

  /**
   * `getStatusColor`: completed first, then expired, then reserved. A status
   * the label table translates gets the colour of its label; any other gets
   * the default.
   */
  function StatusColor(v: Value): (r: string)
    ensures r in {CompletedColor, ExpiredColor, ReservedColor, DefaultColor}
    ensures StatusKey(v) in StatusVi ==> StatusVi[StatusKey(v)] in LabelColor && r == LabelColor[StatusVi[StatusKey(v)]]
    ensures StatusKey(v) !in StatusVi ==> r == DefaultColor
  {
    var s := StatusKey(v);
    if s == "completed" || s == "complete" then CompletedColor
    else if s == "expired" then ExpiredColor
    else if s == "reserved" || s == "reverse" then ReservedColor
    else DefaultColor
  }

  /** A status is translated exactly when its key is one of the five table keys. */
  predicate Translated(v: Value) {
    StatusKey(v) in StatusVi
  }

  /** Label and colour cover the same keys: a status gets a translated label iff it gets a non-default colour. */
  lemma LabelAgreesWithColor(v: Value)
    ensures Translated(v) <==> StatusColor(v) != DefaultColor
  {
  }

  /** Among translated statuses, two share a label iff they share a colour. */
  lemma SameLabelSameColor(a: Value, b: Value)
    requires Translated(a) && Translated(b)
    ensures ToViStatus(a) == ToViStatus(b) <==> StatusColor(a) == StatusColor(b)
  {
    var ka, kb := StatusKey(a), StatusKey(b);
    assert StatusVi[ka] == StatusVi[kb] <==> StatusColor(a) == StatusColor(b) by {
      assert StatusVi.Keys == {"reserved", "reverse", "expired", "completed", "complete"};
    }
  }

  /** Both mappings ignore letter case: strings that lower-case alike get the same colour and, when translated, the same label. */
  lemma CaseInsensitive(a: string, b: string)
    requires Lower(a) == Lower(b)
    ensures StatusColor(Str(a)) == StatusColor(Str(b))
    ensures Translated(Str(a)) ==> ToViStatus(Str(a)) == ToViStatus(Str(b))
  {
    StrOrEmpty(a);
    StrOrEmpty(b);
  }

  /**
   * The table as the source reads it, `STATUS_VI[key]` on an object literal:
   * the lookup also finds the two all-lower-case names that every object
   * inherits, and returns the inherited member instead of a label.
   */
  datatype Lookup = Own(text: string) | Inherited(name: string) | Missing

  /** Inherited properties of an object literal whose names are already lower case. */
  const InheritedLowerNames: set<string> := {"constructor", "__proto__"}

  function LookupAsWritten(key: string): (r: Lookup)
    ensures r.Own? <==> key in StatusVi
    ensures r.Inherited? <==> key in InheritedLowerNames
  {
    if key in StatusVi then Own(StatusVi[key])
    else if key in InheritedLowerNames then Inherited(key)
    else Missing
  }

  /** What `toViStatus` yields as written: an inherited member is truthy and is returned in place of the status. */
  datatype Shown = Shown(v: Value) | Member(name: string)

  function ToViStatusAsWritten(v: Value): (r: Shown)
    ensures r.Member? <==> StatusKey(v) in InheritedLowerNames
    ensures r.Shown? ==> r.v == ToViStatus(v)
  {
    match LookupAsWritten(StatusKey(v))
    case Own(text) => Shown(Str(text))
    case Inherited(name) => Member(name)
    case Missing => Shown(Or(v, Str("-")))
  }

  /** A status spelled like an inherited member gets that member, not its own text. */
  lemma ConstructorStatusShowsMember()
    ensures ToViStatusAsWritten(Str("Constructor")) == Member("constructor")
    ensures ToViStatus(Str("Constructor")) == Str("Constructor")
  {
    ConstructorKey();
    var key := StatusKey(Str("Constructor"));
    assert key !in StatusVi by {
      assert forall k :: k in StatusVi ==> |k| != |key|;
    }
    assert LookupAsWritten(key) == Inherited(key);
  }

  lemma ConstructorKey()
    ensures StatusKey(Str("Constructor")) == "constructor"
  {
    StrOrEmpty("Constructor");
  }

  // ---------------------------------------------------------------- bytes and hex

  type Byte = b: int | 0 <= b < 256

  /** The UTF-8 encoding of one scalar value. */
  function Utf8(c: char): (r: seq<Byte>)
    ensures 1 <= |r| <= 4
  {
    var n := c as int;
    if n < 0x80 then [n]
    else if n < 0x800 then [0xC0 + n / 64, 0x80 + n % 64]
    else if n < 0x10000 then [0xE0 + n / 4096, 0x80 + (n / 64) % 64, 0x80 + n % 64]
    else [0xF0 + n / 262144, 0x80 + (n / 4096) % 64, 0x80 + (n / 64) % 64, 0x80 + n % 64]
  }

  /** Upper-case hexadecimal digit. */
  function HexDigit(d: int): (r: char)
    requires 0 <= d < 16
    ensures HexValue(r) == Some(d)
  {
    if d < 10 then ('0' as int + d) as char else ('A' as int + d - 10) as char
  }

  function HexValue(c: char): Option<int> {
    if '0' <= c <= '9' then Some(c as int - '0' as int)
    else if 'A' <= c <= 'F' then Some(c as int - 'A' as int + 10)
    else None
  }

  function PercentByte(b: Byte): (r: string)
    ensures |r| == 3 && r[0] == '%'
  {
    ['%', HexDigit(b / 16), HexDigit(b % 16)]
  }

  function PercentBytes(bs: seq<Byte>): (r: string)
    ensures |r| == 3 * |bs|
  {
    if |bs| == 0 then "" else PercentByte(bs[0]) + PercentBytes(bs[1..])
  }

  // ---------------------------------------------------------------- form encoding

  predicate AsciiAlnum(c: char) {
    ('0' <= c <= '9') || ('A' <= c <= 'Z') || ('a' <= c <= 'z')
  }

  /** Characters the application/x-www-form-urlencoded serializer leaves as they are. */
  predicate FormSafe(c: char) {
    AsciiAlnum(c) || c == '*' || c == '-' || c == '.' || c == '_'
  }

  /** A space becomes `+`, a safe character stays, anything else becomes its UTF-8 bytes as `%XX`. */
  function EncodeChar(c: char): (r: string)
    ensures |r| > 0
  {
    if c == ' ' then "+"
    else if FormSafe(c) then [c]
    else PercentBytes(Utf8(c))
  }

  /** The application/x-www-form-urlencoded byte serializer, on a string's UTF-8 encoding. */
  function FormEncode(s: string): string {
    if |s| == 0 then "" else EncodeChar(s[0]) + FormEncode(s[1..])
  }

  /** Characters that can appear in encoded text. */
  predicate EncodedChar(c: char) {
    FormSafe(c) || c == '+' || c == '%'
  }

  lemma EncodeCharAlphabet(c: char)
    ensures forall i :: 0 <= i < |EncodeChar(c)| ==> EncodedChar(EncodeChar(c)[i])
  {
    if c != ' ' && !FormSafe(c) {
      PercentBytesAlphabet(Utf8(c));
    }
  }

  lemma {:induction false} PercentBytesAlphabet(bs: seq<Byte>)
    ensures forall i :: 0 <= i < |PercentBytes(bs)| ==> EncodedChar(PercentBytes(bs)[i])
    decreases |bs|
  {
    if |bs| > 0 {
      PercentBytesAlphabet(bs[1..]);
      var h, t := PercentByte(bs[0]), PercentBytes(bs[1..]);
      forall i | 0 <= i < |h + t|
        ensures EncodedChar((h + t)[i])
      {
        if i >= |h| {
          assert (h + t)[i] == t[i - |h|];
        }
      }
    }
  }

  /** Encoded text never contains the separators `&`, `=` or `?`. */
  lemma {:induction false} FormEncodeAlphabet(s: string)
    ensures forall i :: 0 <= i < |FormEncode(s)| ==> EncodedChar(FormEncode(s)[i])
    decreases |s|
  {
    if |s| > 0 {
      EncodeCharAlphabet(s[0]);
      FormEncodeAlphabet(s[1..]);
      var h, t := EncodeChar(s[0]), FormEncode(s[1..]);
      forall i | 0 <= i < |h + t|
        ensures EncodedChar((h + t)[i])
      {
        if i >= |h| {
          assert (h + t)[i] == t[i - |h|];
        }
      }
    }
  }

  // ---------------------------------------------------------------- form decoding

  /** Reads one `%XX` from the front of `t`. */
  function ReadByte(t: string): (r: Option<(Byte, string)>)
    ensures r.Some? ==> |r.value.1| < |t|
  {
    if |t| < 3 || t[0] != '%' then None
    else match (HexValue(t[1]), HexValue(t[2]))
      case (Some(h), Some(l)) =>
        if 0 <= h < 16 && 0 <= l < 16 then Some((16 * h + l, t[3..])) else None
      case _ => None
  }

  predicate Continuation(b: int) {
    0x80 <= b < 0xC0
  }

  /** Reads `n` continuation bytes, folding their six payload bits into `acc`. */
  function ReadContinuations(t: string, n: nat, acc: int): (r: Option<(int, string)>)
    ensures r.Some? ==> |r.value.1| <= |t|
    decreases n
  {
    if n == 0 then Some((acc, t))
    else match ReadByte(t)
      case Some((b, rest)) =>
        if Continuation(b) then ReadContinuations(rest, n - 1, acc * 64 + (b as int - 0x80)) else None
      case None => None
  }

  predicate IsScalar(n: int) {
    (0 <= n < 0xD800) || (0xE000 <= n < 0x11_0000)
  }

  /** The number of continuation bytes a lead byte announces, and the payload bits it carries. */
  function LeadOf(b: Byte): Option<(nat, int)> {
    if b < 0x80 then Some((0, b))
    else if 0xC0 <= b < 0xE0 then Some((1, b - 0xC0))
    else if 0xE0 <= b < 0xF0 then Some((2, b - 0xE0))
    else if 0xF0 <= b < 0xF8 then Some((3, b - 0xF0))
    else None
  }

  /** Decodes one percent-encoded UTF-8 sequence. */
  function ReadPercentChar(t: string): (r: Option<(char, string)>)
    ensures r.Some? ==> |r.value.1| < |t|
  {
    match ReadByte(t)
    case None => None
    case Some((b, rest)) =>
      match LeadOf(b)
      case None => None
      case Some((n, bits)) =>
        match ReadContinuations(rest, n, bits)
        case None => None
        case Some((cp, rest2)) => if IsScalar(cp) then Some((cp as char, rest2)) else None
  }

  /** Decodes one character: `+` is a space, `%` starts a byte sequence, anything else stands for itself. */
  function DecodeChar(t: string): (r: Option<(char, string)>)
    requires |t| > 0
    ensures r.Some? ==> |r.value.1| < |t|
  {
    if t[0] == '+' then Some((' ', t[1..]))
    else if t[0] == '%' then ReadPercentChar(t)
    else Some((t[0], t[1..]))
  }

  /** The inverse of `FormEncode`. */
  function FormDecode(t: string): Option<string>
    decreases |t|
  {
    if |t| == 0 then Some("")
    else match DecodeChar(t)
      case None => None
      case Some((c, rest)) =>
        match FormDecode(rest)
        case None => None
        case Some(s) => Some([c] + s)
  }

  lemma PercentByteRead(b: Byte, rest: string)
    ensures ReadByte(PercentByte(b) + rest) == Some((b, rest))
  {
    var t := PercentByte(b) + rest;
    assert t[1] == HexDigit(b / 16) && t[2] == HexDigit(b % 16) && t[3..] == rest;
  }

  lemma PercentBytesCons(b: Byte, bs: seq<Byte>)
    ensures PercentBytes([b] + bs) == PercentByte(b) + PercentBytes(bs)
  {
    assert ([b] + bs)[1..] == bs;
  }

  /** The value continuation bytes `cs` fold into, starting from the lead byte's bits. */
  function Fold(acc: int, cs: seq<Byte>): int
    decreases |cs|
  {
    if |cs| == 0 then acc else Fold(acc * 64 + (cs[0] as int - 0x80), cs[1..])
  }

  lemma {:induction false} ReadConts(cs: seq<Byte>, rest: string, acc: int)
    requires forall i :: 0 <= i < |cs| ==> Continuation(cs[i])
    ensures ReadContinuations(PercentBytes(cs) + rest, |cs|, acc) == Some((Fold(acc, cs), rest))
    decreases |cs|
  {
    if |cs| > 0 {
      assert cs == [cs[0]] + cs[1..];
      PercentBytesCons(cs[0], cs[1..]);
      var tail := PercentBytes(cs[1..]) + rest;
      assert PercentBytes(cs) + rest == PercentByte(cs[0]) + tail;
      PercentByteRead(cs[0], tail);
      assert Continuation(cs[0]);
      ReadConts(cs[1..], rest, acc * 64 + (cs[0] as int - 0x80));
    } else {
      assert PercentBytes(cs) + rest == rest;
    }
  }

  /** The lead byte of a character's encoding announces the rest, and the bytes fold back to the code point. */
  predicate FoldsBack(c: char) {
    var bs := Utf8(c);
    && LeadOf(bs[0]).Some? && LeadOf(bs[0]).value.0 == |bs| - 1
    && (forall i :: 1 <= i < |bs| ==> Continuation(bs[i]))
    && Fold(LeadOf(bs[0]).value.1, bs[1..]) == c as int
  }

  lemma Utf8Folds(c: char)
    ensures FoldsBack(c)
  {
    var n := c as int;
    if n < 0x80 {
      assert Utf8(c) == [n];
    } else if n < 0x800 {
      Utf8Folds2(c);
    } else if n < 0x10000 {
      Utf8Folds3(c);
    } else {
      Utf8Folds4(c);
    }
  }

  lemma Utf8Folds2(c: char)
    requires 0x80 <= c as int < 0x800
    ensures FoldsBack(c)
  {
    var n := c as int;
    var bs := Utf8(c);
    assert bs == [0xC0 + n / 64, 0x80 + n % 64];
    assert bs[1..] == [0x80 + n % 64];
    Fold2(n / 64, n % 64);
  }

  lemma Utf8Folds3(c: char)
    requires 0x800 <= c as int < 0x10000
    ensures FoldsBack(c)
  {
    var n := c as int;
    var bs := Utf8(c);
    assert bs == [0xE0 + n / 4096, 0x80 + (n / 64) % 64, 0x80 + n % 64];
    assert bs[1..] == [0x80 + (n / 64) % 64, 0x80 + n % 64];
    Fold3(n / 4096, (n / 64) % 64, n % 64);
    assert (n / 4096) * 4096 + ((n / 64) % 64) * 64 + n % 64 == n;
  }

  lemma Utf8Folds4(c: char)
    requires 0x10000 <= c as int
    ensures FoldsBack(c)
  {
    var n := c as int;
    var bs := Utf8(c);
    assert bs == [0xF0 + n / 262144, 0x80 + (n / 4096) % 64, 0x80 + (n / 64) % 64, 0x80 + n % 64];
    assert bs[1..] == [0x80 + (n / 4096) % 64, 0x80 + (n / 64) % 64, 0x80 + n % 64];
    Fold4(n / 262144, (n / 4096) % 64, (n / 64) % 64, n % 64);
    SixBitGroups(n);
  }

  /** A number is the sum of its base-64 digit groups, with everything above the third in the top group. */
  lemma SixBitGroups(n: nat)
    ensures (n / 262144) * 262144 + ((n / 4096) % 64) * 4096 + ((n / 64) % 64) * 64 + n % 64 == n
  {
    var q1 := n / 64;
    var q2 := q1 / 64;
    assert n / 4096 == q2;
    assert n / 262144 == q2 / 64;
    assert q2 == (q2 / 64) * 64 + q2 % 64;
    assert q1 == q2 * 64 + q1 % 64;
    assert n == q1 * 64 + n % 64;
  }

  lemma Fold2(a: int, b: int)
    requires 0 <= b < 64
    ensures Fold(a, [0x80 + b]) == a * 64 + b
  {
    assert [0x80 + b][1..] == [];
  }

  lemma Fold3(a: int, b: int, c: int)
    requires 0 <= b < 64 && 0 <= c < 64
    ensures Fold(a, [0x80 + b, 0x80 + c]) == a * 4096 + b * 64 + c
  {
    assert [0x80 + b, 0x80 + c][1..] == [0x80 + c];
    Fold2(a * 64 + b, c);
  }

  lemma Fold4(a: int, b: int, c: int, d: int)
    requires 0 <= b < 64 && 0 <= c < 64 && 0 <= d < 64
    ensures Fold(a, [0x80 + b, 0x80 + c, 0x80 + d]) == a * 262144 + b * 4096 + c * 64 + d
  {
    assert [0x80 + b, 0x80 + c, 0x80 + d][1..] == [0x80 + c, 0x80 + d];
    Fold3(a * 64 + b, c, d);
  }

  /** Reading back the percent-encoded UTF-8 bytes of a character yields the character. */
  lemma ReadEncodedChar(c: char, rest: string)
    ensures ReadPercentChar(PercentBytes(Utf8(c)) + rest) == Some((c, rest))
  {
    var bs := Utf8(c);
    var cs := bs[1..];
    Utf8Folds(c);
    assert bs == [bs[0]] + cs;
    PercentBytesCons(bs[0], cs);
    var tail := PercentBytes(cs) + rest;
    assert PercentBytes(bs) + rest == PercentByte(bs[0]) + tail;
    PercentByteRead(bs[0], tail);
    assert forall i :: 0 <= i < |cs| ==> Continuation(cs[i]) by {
      forall i | 0 <= i < |cs| ensures Continuation(cs[i]) {
        assert cs[i] == bs[i + 1];
      }
    }
    ReadConts(cs, rest, LeadOf(bs[0]).value.1);
    assert IsScalar(c as int);
  }

  lemma DecodeEncodedChar(c: char, rest: string)
    ensures DecodeChar(EncodeChar(c) + rest) == Some((c, rest))
  {
    var t := EncodeChar(c) + rest;
    if c == ' ' {
      assert t[0] == '+' && t[1..] == rest;
    } else if FormSafe(c) {
      assert t[0] == c && t[1..] == rest;
    } else {
      ReadEncodedChar(c, rest);
    }
  }

  /** Decoding undoes the form encoding. */
  lemma {:induction false} FormRoundTrip(s: string)
    ensures FormDecode(FormEncode(s)) == Some(s)
    decreases |s|
  {
    if |s| > 0 {
      var e := FormEncode(s[1..]);
      var t := EncodeChar(s[0]) + e;
      assert FormEncode(s) == t;
      DecodeEncodedChar(s[0], e);
      FormRoundTrip(s[1..]);
      assert FormDecode(t) == Some([s[0]] + s[1..]);
      assert s == [s[0]] + s[1..];
    }
  }

  // ---------------------------------------------------------------- query string

  /** The three filter inputs: the status select and the two date inputs. */
  datatype Filters = Filters(status: string, start: string, end: string)

  /** `params.append` for each non-empty filter, in the order status, start, end. */
  function Params(f: Filters): (r: seq<(string, string)>)
    ensures |r| <= 3
    ensures forall i :: 0 <= i < |r| ==> r[i].1 != ""
    ensures (f.status != "" ==> ("status", f.status) in r) && (f.start != "" ==> ("start", f.start) in r)
      && (f.end != "" ==> ("end", f.end) in r)
    ensures r == [] <==> f.status == "" && f.start == "" && f.end == ""
  {
    (if f.status != "" then [("status", f.status)] else [])
    + (if f.start != "" then [("start", f.start)] else [])
    + (if f.end != "" then [("end", f.end)] else [])
  }

  /** The parameter names that appear, in the order they appear. */
  function Names(ps: seq<(string, string)>): seq<string> {
    if |ps| == 0 then [] else [ps[0].0] + Names(ps[1..])
  }

  /** Parameters keep the fixed order: names are a sub-list of status, start, end. */
  lemma ParamsOrder(f: Filters)
    ensures Names(Params(f)) == (if f.status != "" then ["status"] else [])
      + (if f.start != "" then ["start"] else []) + (if f.end != "" then ["end"] else [])
  {
    var a := if f.status != "" then [("status", f.status)] else [];
    var b := if f.start != "" then [("start", f.start)] else [];
    var c := if f.end != "" then [("end", f.end)] else [];
    NamesAppend(a, b);
    NamesAppend(a + b, c);
  }

  lemma {:induction false} NamesAppend(a: seq<(string, string)>, b: seq<(string, string)>)
    ensures Names(a + b) == Names(a) + Names(b)
    decreases |a|
  {
    if |a| > 0 {
      assert (a + b)[1..] == a[1..] + b;
      NamesAppend(a[1..], b);
    } else {
      assert a + b == b;
    }
  }

  function EncodePair(p: (string, string)): string {
    FormEncode(p.0) + "=" + FormEncode(p.1)
  }

  /** `params.toString()`: encoded pairs joined by `&`. */
  function Serialize(ps: seq<(string, string)>): (r: string)
    ensures r == "" <==> ps == []
  {
    if |ps| == 0 then ""
    else if |ps| == 1 then EncodePair(ps[0])
    else EncodePair(ps[0]) + "&" + Serialize(ps[1..])
  }

  /** The request URL: the endpoint, then `?` and the query only when the query is non-empty. */
  function BookingsUrl(base: string, f: Filters): string {
    var q := Serialize(Params(f));
    base + Endpoint + (if q != "" then "?" + q else "")
  }

  const Endpoint := "/webAPI/api/secure/my-bookings"

  lemma EndpointHasNoQuery()
    ensures '?' !in Endpoint
  {
  }

  lemma {:induction false} SerializeAlphabet(ps: seq<(string, string)>)
    ensures '?' !in Serialize(ps)
    decreases |ps|
  {
    if |ps| > 0 {
      FormEncodeAlphabet(ps[0].0);
      FormEncodeAlphabet(ps[0].1);
      assert '?' !in FormEncode(ps[0].0) && '?' !in FormEncode(ps[0].1);
      assert '?' !in EncodePair(ps[0]);
      if |ps| > 1 {
        SerializeAlphabet(ps[1..]);
      }
    }
  }

  /** With a base URL free of `?`, the URL has a `?` iff at least one filter is set. */
  lemma QuestionMarkIffFilter(base: string, f: Filters)
    requires '?' !in base
    ensures '?' in BookingsUrl(base, f) <==> f.status != "" || f.start != "" || f.end != ""
  {
    var q := Serialize(Params(f));
    SerializeAlphabet(Params(f));
    var stem := base + Endpoint;
    EndpointHasNoQuery();
    assert '?' !in stem;
    if q != "" {
      assert BookingsUrl(base, f)[|stem|] == '?';
    } else {
      assert BookingsUrl(base, f) == stem;
    }
  }

  // ---------------------------------------------------------------- parsing back

  /** Splits at every occurrence of `sep`. */
  function Split(t: string, sep: char): (r: seq<string>)
    ensures |r| > 0
    decreases |t|
  {
    if |t| == 0 then [""]
    else
      var r := Split(t[1..], sep);
      if t[0] == sep then [""] + r else [[t[0]] + r[0]] + r[1..]
  }

  lemma {:induction false} SplitNoSep(a: string, sep: char)
    requires sep !in a
    ensures Split(a, sep) == [a]
    decreases |a|
  {
    if |a| > 0 {
      SplitNoSep(a[1..], sep);
      assert a == [a[0]] + a[1..];
    }
  }

  lemma {:induction false} SplitAt(a: string, sep: char, b: string)
    requires sep !in a
    ensures Split(a + [sep] + b, sep) == [a] + Split(b, sep)
    decreases |a|
  {
    if |a| == 0 {
      assert a + [sep] + b == [sep] + b;
      assert ([sep] + b)[1..] == b;
    } else {
      assert (a + [sep] + b)[1..] == a[1..] + [sep] + b;
      SplitAt(a[1..], sep, b);
      assert a == [a[0]] + a[1..];
    }
  }

  /** Splits one `name=value` at its first `=` and decodes both halves. */
  function ParsePair(t: string): Option<(string, string)> {
    var parts := Split(t, '=');
    if |parts| != 2 then None
    else match (FormDecode(parts[0]), FormDecode(parts[1]))
      case (Some(k), Some(v)) => Some((k, v))
      case _ => None
  }

  function ParsePairs(items: seq<string>): Option<seq<(string, string)>> {
    if |items| == 0 then Some([])
    else match (ParsePair(items[0]), ParsePairs(items[1..]))
      case (Some(p), Some(ps)) => Some([p] + ps)
      case _ => None
  }

  /** Reads a query string back into its list of pairs. */
  function ParseQuery(q: string): Option<seq<(string, string)>> {
    if q == "" then Some([]) else ParsePairs(Split(q, '&'))
  }

  lemma NoSeparators(s: string)
    ensures '&' !in FormEncode(s) && '=' !in FormEncode(s)
  {
    FormEncodeAlphabet(s);
  }

  lemma PairRoundTrip(p: (string, string))
    ensures '&' !in EncodePair(p)
    ensures ParsePair(EncodePair(p)) == Some(p)
  {
    NoSeparators(p.0);
    NoSeparators(p.1);
    SplitAt(FormEncode(p.0), '=', FormEncode(p.1));
    SplitNoSep(FormEncode(p.1), '=');
    FormRoundTrip(p.0);
    FormRoundTrip(p.1);
    assert EncodePair(p) == FormEncode(p.0) + ['='] + FormEncode(p.1);
  }

  lemma {:induction false} SplitSerialized(ps: seq<(string, string)>)
    requires |ps| > 0
    ensures ParsePairs(Split(Serialize(ps), '&')) == Some(ps)
    decreases |ps|
  {
    PairRoundTrip(ps[0]);
    if |ps| == 1 {
      SplitNoSep(EncodePair(ps[0]), '&');
      assert [EncodePair(ps[0])][1..] == [];
      assert ParsePairs([]) == Some([]);
      assert [ps[0]] + [] == ps;
    } else {
      SplitAt(EncodePair(ps[0]), '&', Serialize(ps[1..]));
      assert Serialize(ps) == EncodePair(ps[0]) + ['&'] + Serialize(ps[1..]);
      SplitSerialized(ps[1..]);
      var items := Split(Serialize(ps), '&');
      assert items[1..] == Split(Serialize(ps[1..]), '&');
      assert ps == [ps[0]] + ps[1..];
    }
  }

  /** The query string determines the filters' pairs: parsing it gives them back. */
  lemma QueryRoundTrip(f: Filters)
    ensures ParseQuery(Serialize(Params(f))) == Some(Params(f))
  {
    if Params(f) != [] {
      SplitSerialized(Params(f));
    }
  }
}
