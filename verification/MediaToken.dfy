/** The short-lived media token of svc-vision (services/svc-vision/internal/api/server.go):
    unpadded base64url (section 5 of RFC 4648) of "user|role|expiry", a dot, and a
    signature over the encoded part. Strings are byte strings; the keyed hash, already
    in hexadecimal, is a parameter. */
module MediaToken {
  import opened Prelude

  type Bytes = seq<Byte>

  const DOT: Byte := 46
  const PIPE: Byte := 124
  const MINUS: Byte := 45
  const PLUS: Byte := 43
  const LF: Byte := 10
  const CR: Byte := 13

  // ------------------------------------------------------------------ base64url

  type Sextet = x: int | 0 <= x < 64

  /** A-Z, a-z, 0-9, '-', '_'. */
  function Letter(v: Sextet): Byte {
    if v < 26 then 65 + v
    else if v < 52 then 97 + (v - 26)
    else if v < 62 then 48 + (v - 52)
    else if v == 62 then 45
    else 95
  }

  function LetterValue(c: Byte): Option<Sextet> {
    if 65 <= c <= 90 then Some(c - 65)
    else if 97 <= c <= 122 then Some(c - 97 + 26)
    else if 48 <= c <= 57 then Some(c - 48 + 52)
    else if c == 45 then Some(62)
    else if c == 95 then Some(63)
    else None
  }

  /** The alphabet of section 5 of RFC 4648. */
  lemma Alphabet(v: Sextet)
    ensures v <= 25 ==> Letter(v) == 'A' as int + v
    ensures 26 <= v <= 51 ==> Letter(v) == 'a' as int + (v - 26)
    ensures 52 <= v <= 61 ==> Letter(v) == '0' as int + (v - 52)
    ensures v == 62 ==> Letter(v) == '-' as int
    ensures v == 63 ==> Letter(v) == '_' as int
  {}

  lemma LetterInverse(v: Sextet)
    ensures LetterValue(Letter(v)) == Some(v)
    ensures Letter(v) != DOT && Letter(v) != CR && Letter(v) != LF
  {
  }

  /** Three bytes as one word, and four sextets as one word. */
  function Word(x: nat, y: nat, z: nat): nat { 65536 * x + 256 * y + z }
  function Word4(p: nat, q: nat, r: nat, s: nat): nat { 262144 * p + 4096 * q + 64 * r + s }

  /** The i-th group of six or eight bits of a word, from the low end. */
  function Six(v: nat, i: nat): Sextet { if i == 0 then v % 64 else Six(v / 64, i - 1) }
  function Eight(v: nat, i: nat): Byte { if i == 0 then v % 256 else Eight(v / 256, i - 1) }

  /** The bits of `b` in groups of six, the last padded with zero bits. */
  function Pack(b: Bytes): seq<Sextet> {
    if b == [] then []
    else if |b| == 1 then
      var v := Word(b[0], 0, 0);
      [Six(v, 3), Six(v, 2)]
    else if |b| == 2 then
      var v := Word(b[0], b[1], 0);
      [Six(v, 3), Six(v, 2), Six(v, 1)]
    else
      var v := Word(b[0], b[1], b[2]);
      [Six(v, 3), Six(v, 2), Six(v, 1), Six(v, 0)] + Pack(b[3..])
  }

  function Letters(d: seq<Sextet>): Bytes {
    if d == [] then [] else [Letter(d[0])] + Letters(d[1..])
  }

  function Encode(b: Bytes): Bytes { Letters(Pack(b)) }

  /** Line breaks are skipped. */
  function WithoutBreaks(s: Bytes): Bytes {
    if s == [] then []
    else if s[0] == CR || s[0] == LF then WithoutBreaks(s[1..])
    else [s[0]] + WithoutBreaks(s[1..])
  }

  /** The values of the letters, or nothing if there is another byte. */
  function Sextets(s: Bytes): Option<seq<Sextet>> {
    if s == [] then Some([])
    else
      match (LetterValue(s[0]), Sextets(s[1..]))
      case (Some(v), Some(rest)) => Some([v] + rest)
      case _ => None
  }

  /** Unused trailing bits are ignored; a single left-over letter is an error. */
  function Unpack(d: seq<Sextet>): Option<Bytes> {
    if d == [] then Some([])
    else if |d| == 1 then None
    else if |d| == 2 then
      var v := Word4(d[0], d[1], 0, 0);
      Some([Eight(v, 2)])
    else if |d| == 3 then
      var v := Word4(d[0], d[1], d[2], 0);
      Some([Eight(v, 2), Eight(v, 1)])
    else
      var v := Word4(d[0], d[1], d[2], d[3]);
      match Unpack(d[4..])
      case None => None
      case Some(rest) => Some([Eight(v, 2), Eight(v, 1), Eight(v, 0)] + rest)
  }

  function Decode(s: Bytes): Option<Bytes> {
    match Sextets(WithoutBreaks(s))
    case None => None
    case Some(d) => Unpack(d)
  }

  lemma SixStep(v: nat, i: nat)
    ensures Six(v, 0) == v % 64 && Six(v, i + 1) == Six(v / 64, i)
  {
  }

  lemma SixesOf(v: nat)
    ensures Six(v, 0) == v % 64 && Six(v, 1) == v / 64 % 64
    ensures Six(v, 2) == v / 64 / 64 % 64 && Six(v, 3) == v / 64 / 64 / 64 % 64
  {
    hide Six;
    SixStep(v, 0);
    SixStep(v, 1);
    SixStep(v, 2);
    SixStep(v / 64, 0);
    SixStep(v / 64, 1);
    SixStep(v / 64 / 64, 0);
    SixStep(v / 64 / 64 / 64, 0);
  }

  lemma WordOfSixes(v: nat)
    requires v < 16777216
    ensures Word4(Six(v, 3), Six(v, 2), Six(v, 1), Six(v, 0)) == v
  {
    hide Six;
    SixesOf(v);
    InBase64(v, v / 64, v / 64 / 64, v / 64 / 64 / 64);
  }

  lemma InBase64(v: nat, v1: nat, v2: nat, v3: nat)
    requires v < 16777216 && v1 == v / 64 && v2 == v1 / 64 && v3 == v2 / 64
    ensures 262144 * (v3 % 64) + 4096 * (v2 % 64) + 64 * (v1 % 64) + v % 64 == v
  {
    assert v3 < 64;
  }

  lemma EightsOfWord(x: Byte, y: Byte, z: Byte)
    ensures var v := Word(x, y, z); Eight(v, 2) == x && Eight(v, 1) == y && Eight(v, 0) == z
  {
    var v := Word(x, y, z);
    assert v / 256 == Word(0, x, y) && Word(0, x, y) / 256 == x;
    assert Eight(v, 2) == Eight(Word(0, x, y), 1) == Eight(x, 0);
    assert Eight(v, 1) == Eight(Word(0, x, y), 0);
  }

  lemma Times64(k: nat)
    ensures (64 * k) % 64 == 0 && 64 * k / 64 == k
  {
  }

  lemma LowSixes(x: Byte, y: Byte)
    ensures Six(Word(x, y, 0), 0) == 0 && Six(Word(x, 0, 0), 0) == 0 && Six(Word(x, 0, 0), 1) == 0
  {
    hide Six;
    var k: nat := 1024 * (x as int) + 4 * (y as int);
    Times64(k);
    SixStep(64 * k, 0);
    var j: nat := 16 * (x as int);
    Times64(64 * j);
    Times64(j);
    SixStep(64 * (64 * j), 0);
    SixStep(64 * j, 0);
    assert Word(x, y, 0) == 64 * k && Word(x, 0, 0) == 64 * (64 * j);
  }

  lemma UnpackQuad(p: Sextet, q: Sextet, r: Sextet, s: Sextet, rest: seq<Sextet>, out: Bytes)
    requires Unpack(rest) == Some(out)
    ensures var v := Word4(p, q, r, s);
            Unpack([p, q, r, s] + rest) == Some([Eight(v, 2), Eight(v, 1), Eight(v, 0)] + out)
  {
    hide Eight, Word4;
    assert ([p, q, r, s] + rest)[4..] == rest;
  }

  /** The facts about one word that the codec needs. */
  lemma WordRoundTrip(x: Byte, y: Byte, z: Byte)
    ensures var v := Word(x, y, z);
            && Word4(Six(v, 3), Six(v, 2), Six(v, 1), Six(v, 0)) == v
            && (z == 0 ==> Six(v, 0) == 0)
            && (y == z == 0 ==> Six(v, 1) == 0)
            && Eight(v, 2) == x && Eight(v, 1) == y && Eight(v, 0) == z
  {
    hide Six, Eight, Word, Word4;
    WordIsSmall(x, y, z);
    WordOfSixes(Word(x, y, z));
    EightsOfWord(x, y, z);
    LowSixes(x, y);
  }

  lemma {:induction false} PackThenUnpack(b: Bytes)
    ensures Unpack(Pack(b)) == Some(b)
  {
    if |b| >= 3 {
      PackThenUnpack(b[3..]);
      PackGroup(b);
      hide *;
      WordRoundTrip(b[0], b[1], b[2]);
      var v := Word(b[0], b[1], b[2]);
      UnpackQuad(Six(v, 3), Six(v, 2), Six(v, 1), Six(v, 0), Pack(b[3..]), b[3..]);
      assert b == [b[0], b[1], b[2]] + b[3..];
    } else if |b| == 2 {
      hide Six, Eight, Word, Word4;
      WordRoundTrip(b[0], b[1], 0);
      assert b == [b[0], b[1]];
    } else if |b| == 1 {
      hide Six, Eight, Word, Word4;
      WordRoundTrip(b[0], 0, 0);
      assert b == [b[0]];
    }
  }

  lemma PackGroup(b: Bytes)
    requires |b| >= 3
    ensures var v := Word(b[0], b[1], b[2]);
            Pack(b) == [Six(v, 3), Six(v, 2), Six(v, 1), Six(v, 0)] + Pack(b[3..])
  {
    hide Six, Word;
  }

  lemma WordIsSmall(x: Byte, y: Byte, z: Byte)
    ensures 0 <= Word(x, y, z) < 16777216
  {
  }

  lemma {:induction false} LettersThenSextets(d: seq<Sextet>)
    ensures WithoutBreaks(Letters(d)) == Letters(d) && Sextets(Letters(d)) == Some(d)
    ensures DOT !in Letters(d)
  {
    if d != [] {
      LettersThenSextets(d[1..]);
      LetterInverse(d[0]);
      hide Letter, LetterValue;
      assert d == [d[0]] + d[1..];
      assert Letters(d)[1..] == Letters(d[1..]);
    }
  }

  /** The codec is inverse, and its text has no dot. */
  lemma EncodeThenDecode(b: Bytes)
    ensures Decode(Encode(b)) == Some(b) && DOT !in Encode(b)
  {
    LettersThenSextets(Pack(b));
    PackThenUnpack(b);
  }

  /** The bits of three bytes in groups of six, first bits first; what is left over is
      filled up with zero bits, and not padded. */
  lemma EncodesBits(x: Byte, y: Byte, z: Byte, rest: Bytes)
    ensures Encode([]) == []
    ensures Encode([x]) == [Letter(x / 4), Letter(x % 4 * 16)]
    ensures Encode([x, y]) == [Letter(x / 4), Letter(x % 4 * 16 + y / 16), Letter(y % 16 * 4)]
    ensures Encode([x, y, z] + rest) ==
            [Letter(x / 4), Letter(x % 4 * 16 + y / 16), Letter(y % 16 * 4 + z / 64), Letter(z % 64)] + Encode(rest)
  {
    var b := [x, y, z] + rest;
    assert b[3..] == rest;
    FourGroups(x, 0, 0);
    FourGroups(x, y, 0);
    FourGroups(x, y, z);
    hide Letter;
    var two: seq<Sextet> := [x / 4, x % 4 * 16];
    var three: seq<Sextet> := [x / 4, x % 4 * 16 + y / 16, y % 16 * 4];
    assert Pack([x]) == two && Pack([x, y]) == three;
    LettersOf(two, []);
    LettersOf(three, []);
    var four: seq<Sextet> := [x / 4, x % 4 * 16 + y / 16, y % 16 * 4 + z / 64, z % 64];
    assert Pack(b) == four + Pack(rest);
    LettersOf(four, Pack(rest));
  }

  lemma FourGroups(x: Byte, y: Byte, z: Byte)
    ensures var v := Word(x, y, z);
            && Six(v, 3) == x / 4 && Six(v, 2) == x % 4 * 16 + y / 16
            && Six(v, 1) == y % 16 * 4 + z / 64 && Six(v, 0) == z % 64
  {
    LowGroup(x, y, z);
    SecondGroup(x, y, z / 64);
    HighGroups(x, y / 16);
    SixesOf(Word(x, y, z));
    hide Word, Six;
  }

  lemma LowGroup(x: Byte, y: Byte, z: Byte)
    ensures Word(x, y, z) % 64 == z % 64 && Word(x, y, z) / 64 == 1024 * x + 4 * y + z / 64
  {}

  lemma SecondGroup(x: Byte, y: Byte, w: nat)
    requires w < 4
    ensures (1024 * x + 4 * y + w) % 64 == y % 16 * 4 + w && (1024 * x + 4 * y + w) / 64 == 16 * x + y / 16
  {}

  lemma HighGroups(x: Byte, u: nat)
    requires u < 16
    ensures (16 * x + u) % 64 == x % 4 * 16 + u && (16 * x + u) / 64 == x / 4 && x / 4 % 64 == x / 4
  {}

  lemma {:induction false} LettersOf(a: seq<Sextet>, b: seq<Sextet>)
    ensures Letters(a + b) == Letters(a) + Letters(b)
    ensures |Letters(a)| == |a| && forall i :: 0 <= i < |a| ==> Letters(a)[i] == Letter(a[i])
  {
    hide Letter;
    if a == [] {
      assert a + b == b;
    } else {
      LettersOf(a[1..], b);
      assert (a + b)[1..] == a[1..] + b;
    }
  }

  // -------------------------------------------------------------------- numbers

  const MAX_INT64 := 9223372036854775807

  type Int64 = x: int | -MAX_INT64 - 1 <= x <= MAX_INT64

  predicate IsDigit(c: Byte) { 48 <= c <= 57 }

  function Digits(n: nat): (s: Bytes)
    ensures s != [] && forall c :: c in s ==> IsDigit(c)
  {
    if n < 10 then [48 + n] else Digits(n / 10) + [48 + n % 10]
  }

  function DigitsValue(s: Bytes): nat
    requires forall c :: c in s ==> IsDigit(c)
  {
    if s == [] then 0 else
      assert s[|s| - 1] in s && IsDigit(s[|s| - 1]);
      10 * DigitsValue(s[..|s| - 1]) + (s[|s| - 1] as int - 48)
  }

  /** Decimal text of a number. */
  function PrintInt(n: int): Bytes {
    if n < 0 then [MINUS] + Digits(-n) else Digits(n)
  }

  /** An optional sign and digits; nothing if the text is anything else or out of range. */
  function ParseInt(s: Bytes): Option<Int64> {
    var negative := s != [] && s[0] == MINUS;
    var digits := if s != [] && (s[0] == MINUS || s[0] == PLUS) then s[1..] else s;
    if digits == [] || exists c :: c in digits && !IsDigit(c) then None
    else
      var n: int := if negative then -(DigitsValue(digits) as int) else DigitsValue(digits);
      if -MAX_INT64 - 1 <= n <= MAX_INT64 then Some(n) else None
  }

  /** Decimal: one digit stands for itself, a further one is appended, and a minus sign
      comes first. */
  lemma PrintsDecimal(n: nat, d: nat)
    requires d < 10
    ensures PrintInt(d) == ['0' as int + d]
    ensures n > 0 ==> PrintInt(10 * n + d) == PrintInt(n) + ['0' as int + d]
    ensures n > 0 ==> PrintInt(-(n as int)) == ['-' as int] + PrintInt(n)
  {
    assert (10 * n + d) / 10 == n && (10 * n + d) % 10 == d;
  }

  lemma {:induction false} DigitsRoundTrip(n: nat)
    ensures DigitsValue(Digits(n)) == n
  {
    if n >= 10 {
      DigitsRoundTrip(n / 10);
      var s := Digits(n);
      assert s[..|s| - 1] == Digits(n / 10);
    }
  }

  lemma PrintThenParse(n: Int64)
    ensures ParseInt(PrintInt(n)) == Some(n) && PIPE !in PrintInt(n)
  {
    var size: nat := if n < 0 then -(n as int) else n;
    var d := Digits(size);
    DigitsRoundTrip(size);
    if n < 0 {
      assert ([MINUS] + d)[1..] == d;
    } else {
      assert d[0] in d;
    }
  }

  // ---------------------------------------------------------------------- token

  datatype Failure = BadFormat | BadSignature | BadEncoding | BadContent | Expired

  type Identity = (Bytes, Bytes)

  function Payload(user: Bytes, role: Bytes, exp: Int64): Bytes {
    Encode(user + [PIPE] + role + [PIPE] + PrintInt(exp))
  }

  function Make(sign: Bytes -> Bytes, user: Bytes, role: Bytes, exp: Int64): Bytes {
    var payload := Payload(user, role, exp);
    payload + [DOT] + sign(payload)
  }

  /** The token spelt out. */
  lemma MakeIs(sign: Bytes -> Bytes, user: Bytes, role: Bytes, exp: Int64)
    ensures var bar, dot := '|' as int, '.' as int;
            var payload := Encode(user + [bar] + role + [bar] + PrintInt(exp));
            Make(sign, user, role, exp) == payload + [dot] + sign(payload)
  {}

  /** What comes before and after the first dot. */
  function CutAtDot(s: Bytes): Option<(Bytes, Bytes)> {
    if s == [] then None
    else if s[0] == DOT then Some(([], s[1..]))
    else
      match CutAtDot(s[1..])
      case None => None
      case Some(p) => Some(([s[0]] + p.0, p.1))
  }

  function ParseContent(now: int, content: Bytes): Result<Identity, Failure> {
    var segs := Split(content, PIPE);
    if |segs| != 3 then Err(BadContent)
    else
      match ParseInt(segs[2])
      case None => Err(Expired)
      case Some(exp) => if now > exp then Err(Expired) else Ok((segs[0], segs[1]))
  }

  function Parse(sign: Bytes -> Bytes, now: int, token: Bytes): Result<Identity, Failure> {
    match CutAtDot(token)
    case None => Err(BadFormat)
    case Some((payload, mac)) =>
      if sign(payload) != mac then Err(BadSignature)
      else
        match Decode(payload)
        case None => Err(BadEncoding)
        case Some(content) => ParseContent(now, content)
  }

  lemma {:induction false} CutFirstDot(a: Bytes, b: Bytes)
    requires DOT !in a
    ensures CutAtDot(a + [DOT] + b) == Some((a, b))
  {
    var s := a + [DOT] + b;
    if a == [] {
      assert s[1..] == b;
    } else {
      assert s[1..] == a[1..] + [DOT] + b;
      CutFirstDot(a[1..], b);
      assert a == [a[0]] + a[1..];
    }
  }

  lemma {:induction false} CutIsWhole(s: Bytes)
    ensures CutAtDot(s).Some? ==> s == CutAtDot(s).value.0 + [DOT] + CutAtDot(s).value.1 && DOT !in CutAtDot(s).value.0
  {
    if s != [] {
      CutIsWhole(s[1..]);
      assert s == [s[0]] + s[1..];
    }
  }

  lemma ContentRoundTrip(now: int, user: Bytes, role: Bytes, exp: Int64)
    ensures ParseContent(now, user + [PIPE] + role + [PIPE] + PrintInt(exp)) ==
            if PIPE in user || PIPE in role then Err(BadContent)
            else if now > exp then Err(Expired)
            else Ok((user, role))
  {
    var e := PrintInt(exp);
    PrintThenParse(exp);
    assert user + [PIPE] + role + [PIPE] + e == user + [PIPE] + (role + [PIPE] + e);
    SplitConcat(user, PIPE, role + [PIPE] + e);
    SplitConcat(role, PIPE, e);
    SplitsIffSeparator(user, PIPE);
    SplitsIffSeparator(role, PIPE);
    SplitWithoutSeparator(e, PIPE);
    if PIPE !in user && PIPE !in role {
      SplitWithoutSeparator(user, PIPE);
      SplitWithoutSeparator(role, PIPE);
      assert [user] + ([role] + [e]) == [user, role, e];
    }
  }

  /** Parsing a token made for a user: the user comes back exactly when neither name
      nor role contains '|' and the expiry has not passed. */
  lemma MakeThenParse(sign: Bytes -> Bytes, now: int, user: Bytes, role: Bytes, exp: Int64)
    ensures Parse(sign, now, Make(sign, user, role, exp)) ==
            if PIPE in user || PIPE in role then Err(BadContent)
            else if now > exp then Err(Expired)
            else Ok((user, role))
  {
    var payload := Payload(user, role, exp);
    EncodeThenDecode(user + [PIPE] + role + [PIPE] + PrintInt(exp));
    CutFirstDot(payload, sign(payload));
    ContentRoundTrip(now, user, role, exp);
  }

  /** An accepted token carries the signature of its first part, whose content is the
      returned user and role and a number not yet passed. */
  lemma AcceptedIsSigned(sign: Bytes -> Bytes, now: int, token: Bytes) returns (payload: Bytes, digits: Bytes)
    requires Parse(sign, now, token).Ok?
    ensures token == payload + [DOT] + sign(payload) && DOT !in payload
    ensures var (user, role) := Parse(sign, now, token).value;
            && Decode(payload) == Some(user + [PIPE] + role + [PIPE] + digits)
            && PIPE !in user && PIPE !in role && PIPE !in digits
    ensures ParseInt(digits).Some? && now <= ParseInt(digits).value
  {
    CutIsWhole(token);
    payload := CutAtDot(token).value.0;
    var content := Decode(payload).value;
    var segs := Split(content, PIPE);
    digits := segs[2];
    SplitThenJoin(content, PIPE);
    assert segs[0] in segs && segs[1] in segs;
    assert Join(segs, PIPE) == segs[0] + [PIPE] + (segs[1] + [PIPE] + digits) by {
      assert Join(segs[1..], PIPE) == segs[1] + [PIPE] + Join(segs[1..][1..], PIPE);
    }
    assert segs[0] + [PIPE] + (segs[1] + [PIPE] + digits) == segs[0] + [PIPE] + segs[1] + [PIPE] + digits;
  }

  /** A token over the payload of an issued token is accepted only if it is that very
      token, and then names the user it was issued to. */
  lemma OnlyTheIssuedTokenPasses(sign: Bytes -> Bytes, now: int, user: Bytes, role: Bytes, exp: Int64, mac: Bytes)
    ensures Parse(sign, now, Payload(user, role, exp) + [DOT] + mac).Ok? <==>
              && mac == sign(Payload(user, role, exp))
              && PIPE !in user && PIPE !in role && now <= exp
  {
    var payload := Payload(user, role, exp);
    EncodeThenDecode(user + [PIPE] + role + [PIPE] + PrintInt(exp));
    CutFirstDot(payload, mac);
    MakeThenParse(sign, now, user, role, exp);
  }

  /** Two tokens are the same exactly when expiry and the joined name and role are; so
      different users, roles or expiries never share one if neither name nor role
      contains '|', while ("a|b", "c") and ("a", "b|c") do. */
  lemma TokensDiffer(sign: Bytes -> Bytes, u: Bytes, r: Bytes, e: Int64, u2: Bytes, r2: Bytes, e2: Int64)
    ensures Make(sign, u, r, e) == Make(sign, u2, r2, e2) <==> e == e2 && u + [PIPE] + r == u2 + [PIPE] + r2
    ensures PIPE !in u && PIPE !in u2 && u + [PIPE] + r == u2 + [PIPE] + r2 ==> u == u2 && r == r2
  {
    var front, front2 := u + [PIPE] + r, u2 + [PIPE] + r2;
    if Make(sign, u, r, e) == Make(sign, u2, r2, e2) {
      EncodeThenDecode(front + [PIPE] + PrintInt(e));
      EncodeThenDecode(front2 + [PIPE] + PrintInt(e2));
      CutFirstDot(Payload(u, r, e), sign(Payload(u, r, e)));
      CutFirstDot(Payload(u2, r2, e2), sign(Payload(u2, r2, e2)));
      PrintThenParse(e);
      PrintThenParse(e2);
      LastCut(front, PrintInt(e), front2, PrintInt(e2));
    }
    if PIPE !in u && PIPE !in u2 && front == front2 {
      SplitAtSeparator(u, PIPE, r);
      SplitAtSeparator(u2, PIPE, r2);
      assert Split(front, PIPE)[0] == u && Split(front2, PIPE)[0] == u2;
      assert front[|u| + 1..] == r && front2[|u2| + 1..] == r2;
    }
  }

  /** A text is cut in one way before its last separator. */
  lemma LastCut(a: Bytes, b: Bytes, a2: Bytes, b2: Bytes)
    requires a + [PIPE] + b == a2 + [PIPE] + b2 && PIPE !in b && PIPE !in b2
    ensures a == a2 && b == b2
  {
    var s := a + [PIPE] + b;
    assert s[|a|] == PIPE && s[|a2|] == PIPE;
    assert a == s[..|a|] && a2 == s[..|a2|] && b == s[|a| + 1..] && b2 == s[|a2| + 1..];
  }
}
