/**
 File names for identities, and the registry of their public keys.

 An identity is a sequence of Unicode scalar values, which is what Dafny's `char` is. Its name is a
 percent-encoding of its UTF-8 bytes that can be undone; past 120 characters the name is the encoding's
 first 100 and 16 digits of a hash, which cannot. The lemmas say where two names can meet all the same.
 The registry is the list in `keys.yaml`, where an identity's first entry counts.
 */
module ActorKeys {
  import opened Wrappers

  // ----- UTF-8, section 3 of RFC 3629

  function Utf8(c: char): (b: Bytes)
    ensures 1 <= |b| <= 4
  {
    var v := c as int;
    if v < 0x80 then [v]
    else if v < 0x800 then [0xC0 + v / 0x40, 0x80 + v % 0x40]
    else if v < 0x1_0000 then [0xE0 + v / 0x1000, 0x80 + v / 0x40 % 0x40, 0x80 + v % 0x40]
    else [0xF0 + v / 0x4_0000, 0x80 + v / 0x1000 % 0x40, 0x80 + v / 0x40 % 0x40, 0x80 + v % 0x40]
  }

  function Utf8All(s: string): Bytes {
    if s == "" then [] else Utf8(s[0]) + Utf8All(s[1..])
  }

  predicate IsScalar(v: int) {
    0 <= v < 0xD800 || 0xE000 <= v < 0x11_0000
  }

  function Two(a: int, b: int): int {
    (a - 0xC0) * 0x40 + (b - 0x80)
  }

  function Three(a: int, b: int, c: int): int {
    (a - 0xE0) * 0x1000 + (b - 0x80) * 0x40 + (c - 0x80)
  }

  function Four(a: int, b: int, c: int, d: int): int {
    (a - 0xF0) * 0x4_0000 + (b - 0x80) * 0x1000 + (c - 0x80) * 0x40 + (d - 0x80)
  }

  /** The number that bytes starting like this would stand for. */
  function FirstValue(b: Bytes): int
    requires b != []
  {
    if b[0] < 0x80 then b[0]
    else if b[0] < 0xE0 && |b| >= 2 then Two(b[0], b[1])
    else if b[0] < 0xF0 && |b| >= 3 then Three(b[0], b[1], b[2])
    else if |b| >= 4 then Four(b[0], b[1], b[2], b[3])
    else -1
  }

  /** The characters the bytes encode; nothing when some of them encode none. */
  function FromUtf8(b: Bytes): Option<string>
    decreases |b|
  {
    if b == [] then Some("")
    else
      var v := FirstValue(b);
      if !IsScalar(v) || !(Utf8(v as char) <= b) then None
      else
        match FromUtf8(b[|Utf8(v as char)|..])
        case None => None
        case Some(rest) => Some([v as char] + rest)
  }

  lemma SixBits(v: nat)
    ensures v == v / 0x40 * 0x40 + v % 0x40
    ensures v == v / 0x1000 * 0x1000 + v / 0x40 % 0x40 * 0x40 + v % 0x40
    ensures v == v / 0x4_0000 * 0x4_0000 + v / 0x1000 % 0x40 * 0x1000 + v / 0x40 % 0x40 * 0x40 + v % 0x40
  {
    assert v / 0x40 / 0x40 == v / 0x1000;
    assert v / 0x1000 / 0x40 == v / 0x4_0000;
  }

  lemma ScalarIs(c: char)
    ensures IsScalar(c as int)
  {
  }

  lemma FirstValueFinds(c: char, more: Bytes)
    ensures FirstValue(Utf8(c) + more) == c as int
  {
    var b, v := Utf8(c) + more, c as int;
    ScalarIs(c);
    SixBits(v);
    if v < 0x80 {
      assert b[0] == v;
    } else if v < 0x800 {
      assert b[0] == 0xC0 + v / 0x40 && b[1] == 0x80 + v % 0x40;
    } else if v < 0x1_0000 {
      assert b[0] == 0xE0 + v / 0x1000 && b[1] == 0x80 + v / 0x40 % 0x40 && b[2] == 0x80 + v % 0x40;
    } else {
      assert b[0] == 0xF0 + v / 0x4_0000 && b[1] == 0x80 + v / 0x1000 % 0x40;
      assert b[2] == 0x80 + v / 0x40 % 0x40 && b[3] == 0x80 + v % 0x40;
    }
  }

  lemma {:induction false} Utf8ReadsBack(s: string)
    ensures FromUtf8(Utf8All(s)) == Some(s)
  {
    hide Utf8;
    if s != "" {
      var first, more := Utf8(s[0]), Utf8All(s[1..]);
      FirstValueFinds(s[0], more);
      ScalarIs(s[0]);
      assert first <= first + more && (first + more)[|first|..] == more;
      Utf8ReadsBack(s[1..]);
      assert s == [s[0]] + s[1..];
    }
  }

  // ----- percent-encoding, section 2.1 of RFC 3986

  predicate IsSafe(c: char) {
    'A' <= c <= 'Z' || 'a' <= c <= 'z' || '0' <= c <= '9' || c == '.' || c == '_' || c == '-'
  }

  function Hex(n: int): char
    requires 0 <= n < 16
  {
    if n < 10 then ('0' as int + n) as char else ('A' as int + n - 10) as char
  }

  function HexValue(c: char): (n: int)
    ensures -1 <= n < 16
  {
    if '0' <= c <= '9' then c as int - '0' as int
    else if 'A' <= c <= 'F' then c as int - 'A' as int + 10
    else if 'a' <= c <= 'f' then c as int - 'a' as int + 10
    else -1
  }

  function PercentByte(b: Byte): string {
    ['%', Hex(b / 16), Hex(b % 16)]
  }

  function Percent(b: Bytes): string {
    if b == [] then "" else PercentByte(b[0]) + Percent(b[1..])
  }

  function EncodeChar(c: char): string {
    if IsSafe(c) then [c] else Percent(Utf8(c))
  }

  function Encode(id: string): string {
    if id == "" then "" else EncodeChar(id[0]) + Encode(id[1..])
  }

  /** The bytes a percent-encoded text stands for. */
  function Unpercent(s: string): Option<Bytes> {
    if s == "" then Some([])
    else if s[0] == '%' then
      if |s| < 3 || HexValue(s[1]) < 0 || HexValue(s[2]) < 0 then None
      else
        match Unpercent(s[3..])
        case None => None
        case Some(rest) => Some([16 * HexValue(s[1]) + HexValue(s[2])] + rest)
    else if s[0] as int >= 0x80 then None
    else
      match Unpercent(s[1..])
      case None => None
      case Some(rest) => Some([s[0] as int] + rest)
  }

  /** `decodeURIComponent`. */
  function Decode(s: string): Option<string> {
    match Unpercent(s)
    case None => None
    case Some(bytes) => FromUtf8(bytes)
  }

  lemma UnpercentByte(b: Byte, more: string, rest: Bytes)
    requires Unpercent(more) == Some(rest)
    ensures Unpercent(PercentByte(b) + more) == Some([b] + rest)
  {
    var s := PercentByte(b) + more;
    assert s[3..] == more && s[0] == '%' && s[1] == Hex(b / 16) && s[2] == Hex(b % 16);
    assert HexValue(s[1]) == b / 16 && HexValue(s[2]) == b % 16;
  }

  lemma {:induction false} UnpercentPercent(b: Bytes, more: string, rest: Bytes)
    requires Unpercent(more) == Some(rest)
    ensures Unpercent(Percent(b) + more) == Some(b + rest)
  {
    hide Unpercent, PercentByte;
    if b == [] {
      assert Percent(b) + more == more && b + rest == rest;
    } else {
      UnpercentPercent(b[1..], more, rest);
      UnpercentByte(b[0], Percent(b[1..]) + more, b[1..] + rest);
      assert Percent(b) + more == PercentByte(b[0]) + (Percent(b[1..]) + more);
      assert b + rest == [b[0]] + (b[1..] + rest);
    }
  }

  lemma UnpercentChar(c: char, more: string, rest: Bytes)
    requires Unpercent(more) == Some(rest)
    ensures Unpercent(EncodeChar(c) + more) == Some(Utf8(c) + rest)
  {
    if IsSafe(c) {
      assert ([c] + more)[1..] == more;
    } else {
      UnpercentPercent(Utf8(c), more, rest);
    }
  }

  lemma {:induction false} UnpercentEncode(id: string)
    ensures Unpercent(Encode(id)) == Some(Utf8All(id))
  {
    if id != "" {
      UnpercentEncode(id[1..]);
      UnpercentChar(id[0], Encode(id[1..]), Utf8All(id[1..]));
    }
  }

  /** The encoding can be undone, so it keeps any two identities apart. */
  lemma EncodeReadsBack(id: string)
    ensures Decode(Encode(id)) == Some(id)
  {
    UnpercentEncode(id);
    Utf8ReadsBack(id);
  }

  // ----- file names

  /** The hash of an identity in lower-case hexadecimal digits, 64 of them. */
  type Sha = string -> string

  predicate IsHashDigit(c: char) {
    '0' <= c <= '9' || 'a' <= c <= 'f'
  }

  ghost predicate GoodSha(sha: Sha) {
    forall id :: |sha(id)| == 64 && forall i :: 0 <= i < 64 ==> IsHashDigit(sha(id)[i])
  }

  const MAX_NAME: nat := 120
  const KEPT: nat := 100
  const HASH_DIGITS: nat := 16

  predicate IsShort(id: string) {
    |Encode(id)| <= MAX_NAME
  }

  function Shortened(sha: Sha, id: string): string
    requires GoodSha(sha) && !IsShort(id)
  {
    Encode(id)[..KEPT] + "-" + sha(id)[..HASH_DIGITS]
  }

  function SafeFileName(sha: Sha, id: string): string
    requires GoodSha(sha)
  {
    if IsShort(id) then if Encode(id) == "" then "%00" else Encode(id) else Shortened(sha, id)
  }

  lemma EncodeEmpty(id: string)
    ensures Encode(id) == "" <==> id == ""
  {
    EncodeReadsBack(id);
    EncodeReadsBack("");
  }

  lemma NulIs()
    ensures Encode([0 as char]) == "%00"
  {
    var nul: string := [0 as char];
    assert nul[1..] == "";
    assert Utf8(0 as char)[1..] == [];
    assert Percent(Utf8(0 as char)) == "%00";
  }

  /** A short name decodes to its identity; the empty one's decodes to the NUL character. */
  lemma NameReadsBack(sha: Sha, id: string)
    requires GoodSha(sha) && |Encode(id)| <= 120
    ensures Decode(SafeFileName(sha, id)) == Some(if id == "" then [0 as char] else id)
  {
    EncodeReadsBack(id);
    EncodeEmpty(id);
    if id == "" {
      NulIs();
      EncodeReadsBack([0 as char]);
    }
  }

  lemma EmptyName(sha: Sha)
    requires GoodSha(sha)
    ensures SafeFileName(sha, "") == "%00" && SafeFileName(sha, [0 as char]) == "%00"
  {
    NulIs();
  }

  /**
   Two short identities share a name exactly when they are the same, or one is empty and the other the NUL
   character.
   */
  lemma ShortNamesApart(sha: Sha, a: string, b: string)
    requires GoodSha(sha) && |Encode(a)| <= 120 && |Encode(b)| <= 120
    ensures SafeFileName(sha, a) == SafeFileName(sha, b) <==>
      a == b || (a == "" && b == [0 as char]) || (a == [0 as char] && b == "")
  {
    hide SafeFileName, Decode;
    NameReadsBack(sha, a);
    NameReadsBack(sha, b);
    if a == "" || b == "" {
      NulIs();
      EmptyName(sha);
    }
  }

  /** The name of a longer encoding: its first 100 characters, a hyphen and 16 digits of the identity's hash. */
  lemma LongNameIs(sha: Sha, id: string)
    requires GoodSha(sha) && |Encode(id)| > 120
    ensures var name := SafeFileName(sha, id);
      |name| == 117 && name[..100] == Encode(id)[..100] && name[100] == '-' && name[101..] == sha(id)[..16]
  {
    hide Encode;
  }

  predicate AllowedIn(s: string) {
    forall i :: 0 <= i < |s| ==> IsSafe(s[i]) || s[i] == '%'
  }

  lemma {:induction false} PercentAllowed(b: Bytes)
    ensures AllowedIn(Percent(b))
  {
    if b != [] {
      PercentAllowed(b[1..]);
    }
  }

  lemma {:induction false} EncodeAllowed(id: string)
    ensures AllowedIn(Encode(id))
  {
    if id != "" {
      EncodeAllowed(id[1..]);
      PercentAllowed(Utf8(id[0]));
    }
  }

  /**
   Whatever the identity, its name has safe characters and percent signs only, at most 120 of them and at least
   one.
   */
  lemma NameIsSafe(sha: Sha, id: string)
    requires GoodSha(sha)
    ensures AllowedIn(SafeFileName(sha, id)) && 0 < |SafeFileName(sha, id)| <= MAX_NAME
    ensures forall c :: c in SafeFileName(sha, id) ==>
      'A' <= c <= 'Z' || 'a' <= c <= 'z' || '0' <= c <= '9' || c in {'.', '_', '-', '%'}
  {
    EncodeAllowed(id);
    if !IsShort(id) {
      var hash := sha(id);
      assert forall i :: 0 <= i < 64 ==> IsHashDigit(hash[i]);
    }
  }

  // ----- where names can meet all the same

  /** Letters and digits of ASCII, dots, underscores and hyphens are kept. */
  lemma {:induction false} SafeStays(s: string)
    requires forall c :: c in s ==> 'A' <= c <= 'Z' || 'a' <= c <= 'z' || '0' <= c <= '9' || c in {'.', '_', '-'}
    ensures Encode(s) == s
  {
    if s != "" {
      assert s[0] in s && forall c :: c in s[1..] ==> c in s;
      SafeStays(s[1..]);
      assert s == [s[0]] + s[1..];
    }
  }

  /** A short identity whose encoding has not 117 characters shares its name with no long one. */
  lemma OnlyOneLengthMeets(sha: Sha, short: string, long: string)
    requires GoodSha(sha) && IsShort(short) && !IsShort(long) && |Encode(short)| != KEPT + 1 + HASH_DIGITS
    ensures SafeFileName(sha, short) != SafeFileName(sha, long)
  {
  }

  lemma {:induction false} EncodeAppend(a: string, b: string)
    ensures Encode(a + b) == Encode(a) + Encode(b)
  {
    hide EncodeChar;
    if a == "" {
      assert a + b == b;
    } else {
      EncodeAppend(a[1..], b);
      assert (a + b)[0] == a[0] && (a + b)[1..] == a[1..] + b;
      Assoc(EncodeChar(a[0]), Encode(a[1..]), Encode(b));
    }
  }

  lemma EncodeOne(c: char)
    ensures Encode([c]) == EncodeChar(c)
  {
    assert [c][1..] == "";
  }

  /** A character of ASCII that is not safe becomes a percent sign and its two digits, letters in upper case. */
  lemma AsciiEscape(c: char)
    requires c as int < 0x80 && !('A' <= c <= 'Z' || 'a' <= c <= 'z' || '0' <= c <= '9' || c in {'.', '_', '-'})
    ensures var e := Encode([c]);
      && |e| == 3 && e[0] == '%' && (forall i :: 1 <= i < 3 ==> '0' <= e[i] <= '9' || 'A' <= e[i] <= 'F')
      && 16 * HexValue(e[1]) + HexValue(e[2]) == c as int
  {
    EncodeOne(c);
    var b: Bytes := [c as int];
    assert b[1..] == [] && Percent([]) == "";
    assert Percent(b) == PercentByte(b[0]) + "" == PercentByte(b[0]);
  }

  lemma HexApart(m: int, n: int)
    requires 0 <= m < 16 && 0 <= n < 16 && Hex(m) == Hex(n)
    ensures m == n
  {
    assert HexValue(Hex(m)) == m && HexValue(Hex(n)) == n;
  }

  lemma FirstBytesSame(b: Byte, x: string, c: Byte, y: string)
    requires PercentByte(b) + x == PercentByte(c) + y
    ensures b == c && x == y
  {
    var s, t := PercentByte(b) + x, PercentByte(c) + y;
    assert s[1] == Hex(b / 16) && t[1] == Hex(c / 16) && s[2] == Hex(b % 16) && t[2] == Hex(c % 16);
    HexApart(b / 16, c / 16);
    HexApart(b % 16, c % 16);
    assert s[3..] == x && t[3..] == y;
  }

  lemma {:induction false} PercentStarts(b: Bytes, x: string, c: Bytes, y: string)
    requires |b| <= |c| && Percent(b) + x == Percent(c) + y
    ensures b <= c
  {
    hide PercentByte;
    if b != [] {
      Assoc(PercentByte(b[0]), Percent(b[1..]), x);
      Assoc(PercentByte(c[0]), Percent(c[1..]), y);
      FirstBytesSame(b[0], Percent(b[1..]) + x, c[0], Percent(c[1..]) + y);
      PercentStarts(b[1..], x, c[1..], y);
      assert b == [b[0]] + b[1..] && c == [c[0]] + c[1..];
    }
  }

  /** No character's bytes start another's. */
  lemma Utf8Starts(c: char, d: char)
    requires Utf8(c) <= Utf8(d)
    ensures c == d
  {
    var more := Utf8(d)[|Utf8(c)|..];
    assert Utf8(d) == Utf8(c) + more && Utf8(d) + [] == Utf8(d);
    FirstValueFinds(c, more);
    FirstValueFinds(d, []);
  }

  lemma StartsPercent(c: char)
    requires !IsSafe(c)
    ensures EncodeChar(c) != "" && EncodeChar(c)[0] == '%'
  {
  }

  /** The start of an encoding tells its first character. */
  lemma FirstCharSame(c: char, x: string, d: char, y: string)
    requires EncodeChar(c) + x == EncodeChar(d) + y
    ensures c == d && x == y
  {
    hide Utf8, Percent;
    var s, t := EncodeChar(c) + x, EncodeChar(d) + y;
    if !IsSafe(c) {
      StartsPercent(c);
    }
    if !IsSafe(d) {
      StartsPercent(d);
    }
    assert s[0] == t[0];
    if !IsSafe(c) && !IsSafe(d) {
      if |Utf8(c)| <= |Utf8(d)| {
        PercentStarts(Utf8(c), x, Utf8(d), y);
        Utf8Starts(c, d);
      } else {
        PercentStarts(Utf8(d), y, Utf8(c), x);
        Utf8Starts(d, c);
      }
    }
    assert x == s[|EncodeChar(c)|..] && y == t[|EncodeChar(d)|..];
  }

  lemma CharNotEmpty(c: char)
    ensures EncodeChar(c) != ""
  {
    if !IsSafe(c) {
      StartsPercent(c);
    }
  }

  /** Where one encoding starts another, the one identity starts the other. */
  lemma {:induction false} EncodingStarts(a: string, x: string, b: string)
    requires Encode(a) + x == Encode(b)
    ensures a <= b
  {
    hide EncodeChar;
    if a != "" {
      EncodeEmpty(b);
      CharNotEmpty(a[0]);
      Assoc(EncodeChar(a[0]), Encode(a[1..]), x);
      FirstCharSame(a[0], Encode(a[1..]) + x, b[0], Encode(b[1..]));
      EncodingStarts(a[1..], x, b[1..]);
      assert a == [a[0]] + a[1..] && b == [b[0]] + b[1..];
    }
  }

  lemma {:induction false} NoDashInPercent(b: Bytes)
    ensures forall i :: 0 <= i < |Percent(b)| ==> Percent(b)[i] != '-'
  {
    if b != [] {
      NoDashInPercent(b[1..]);
    }
  }

  lemma DashInChar(c: char, at: nat)
    requires at < |EncodeChar(c)| && EncodeChar(c)[at] == '-'
    ensures at == 0
  {
    if !IsSafe(c) {
      NoDashInPercent(Utf8(c));
    }
  }

  /** A hyphen is never inside an escape, so the encodings of whole characters end before it. */
  lemma {:induction false} DashAtBoundary(s: string, at: nat) returns (n: nat)
    requires at < |Encode(s)| && Encode(s)[at] == '-'
    ensures n <= |s| && |Encode(s[..n])| == at
  {
    hide EncodeChar;
    var first := EncodeChar(s[0]);
    if at < |first| {
      DashInChar(s[0], at);
      n := 0;
    } else {
      assert Encode(s)[at] == Encode(s[1..])[at - |first|];
      var m := DashAtBoundary(s[1..], at - |first|);
      n := m + 1;
      assert s[..n][0] == s[0] && s[..n][1..] == s[1..][..m];
    }
  }

  /** The identity whose own name is the shortened name of the long one. */
  function Double(sha: Sha, long: string, n: nat): string
    requires GoodSha(sha) && n <= |long|
  {
    long[..n] + "-" + sha(long)[..HASH_DIGITS]
  }

  lemma DoubleMeets(sha: Sha, long: string, n: nat)
    requires GoodSha(sha) && !IsShort(long) && n <= |long| && |Encode(long[..n])| == KEPT
    ensures var short := Double(sha, long, n); IsShort(short) && SafeFileName(sha, short) == SafeFileName(sha, long)
  {
    hide Encode;
    var tail := "-" + sha(long)[..HASH_DIGITS];
    assert forall i :: 0 <= i < 64 ==> IsHashDigit(sha(long)[i]);
    SafeStays(tail);
    EncodeAppend(long[..n], tail);
    Assoc(long[..n], "-", sha(long)[..HASH_DIGITS]);
    EncodeAppend(long[..n], long[n..]);
    assert long == long[..n] + long[n..];
    assert Encode(long)[..KEPT] == Encode(long[..n]);
    Assoc(Encode(long[..n]), "-", sha(long)[..HASH_DIGITS]);
  }

  lemma MeetsAtBoundary(sha: Sha, short: string, long: string) returns (n: nat)
    requires GoodSha(sha) && IsShort(short) && !IsShort(long) && SafeFileName(sha, short) == SafeFileName(sha, long)
    ensures n <= |long| && |Encode(long[..n])| == KEPT
  {
    hide Encode;
    var name := Shortened(sha, long);
    assert Encode(short) == name && name[KEPT] == '-';
    n := DashAtBoundary(short, KEPT);
    EncodeAppend(short[..n], short[n..]);
    assert short == short[..n] + short[n..];
    assert Encode(short[..n]) == name[..KEPT] == Encode(long)[..KEPT];
    EncodingStarts(short[..n], Encode(long)[KEPT..], long);
    assert Encode(long) == Encode(long)[..KEPT] + Encode(long)[KEPT..];
    assert long[..n] == short[..n];
  }

  /**
   A long identity shares its name with some short one exactly when the characters that its name keeps end
   between the encodings of two characters, not inside an escape.
   */
  lemma MeetsExactlyAtBoundaries(sha: Sha, long: string)
    requires GoodSha(sha) && !IsShort(long)
    ensures (exists short :: IsShort(short) && SafeFileName(sha, short) == SafeFileName(sha, long)) <==>
      exists n :: 0 <= n <= |long| && |Encode(long[..n])| == KEPT
  {
    hide SafeFileName, Encode, GoodSha;
    if short :| IsShort(short) && SafeFileName(sha, short) == SafeFileName(sha, long) {
      var n := MeetsAtBoundary(sha, short, long);
    }
    if n :| 0 <= n <= |long| && |Encode(long[..n])| == KEPT {
      DoubleMeets(sha, long, n);
    }
  }

  /** Two long identities share a name exactly when their encodings start and their hashes start alike. */
  lemma LongNamesApart(sha: Sha, a: string, b: string)
    requires GoodSha(sha) && !IsShort(a) && !IsShort(b)
    ensures SafeFileName(sha, a) == SafeFileName(sha, b) <==>
      Encode(a)[..KEPT] == Encode(b)[..KEPT] && sha(a)[..HASH_DIGITS] == sha(b)[..HASH_DIGITS]
  {
    hide Encode;
    var x, y := SafeFileName(sha, a), SafeFileName(sha, b);
    assert x[..KEPT] == Encode(a)[..KEPT] && x[KEPT + 1..] == sha(a)[..HASH_DIGITS];
    assert y[..KEPT] == Encode(b)[..KEPT] && y[KEPT + 1..] == sha(b)[..HASH_DIGITS];
  }

  // ----- the registry

  datatype Entry = Entry(identity: string, publicKey: string, addedAt: string)

  /** The place of the identity's first entry. */
  function FindIndex(keys: seq<Entry>, identity: string): (i: nat)
    ensures i <= |keys| && (i < |keys| ==> keys[i].identity == identity)
    ensures forall j :: 0 <= j < i ==> keys[j].identity != identity
  {
    if keys == [] then 0 else if keys[0].identity == identity then 0 else 1 + FindIndex(keys[1..], identity)
  }

  function LookupKey(keys: seq<Entry>, identity: string): Option<string> {
    var i := FindIndex(keys, identity);
    if i < |keys| then Some(keys[i].publicKey) else None
  }

  lemma IndexIs(keys: seq<Entry>, identity: string, i: nat)
    requires i <= |keys| && (i < |keys| ==> keys[i].identity == identity)
    requires forall j :: 0 <= j < i ==> keys[j].identity != identity
    ensures FindIndex(keys, identity) == i
  {
  }

  lemma SameIndex(a: seq<Entry>, b: seq<Entry>, identity: string)
    requires |a| == |b| && forall i :: 0 <= i < |a| ==> a[i].identity == b[i].identity
    ensures FindIndex(a, identity) == FindIndex(b, identity)
  {
    IndexIs(b, identity, FindIndex(a, identity));
  }

  class KeysRegistry {
    var keys: seq<Entry>

    /** `registerPublicKey`: an identity's key is replaced where it stands, a new one goes to the end. */
    method Register(identity: string, publicKey: string, addedAt: string) returns (written: bool)
      modifies this
      ensures LookupKey(keys, identity) == Some(publicKey)
      ensures forall other :: other != identity ==> LookupKey(keys, other) == LookupKey(old(keys), other)
      ensures (forall i, j :: 0 <= i < j < |old(keys)| ==> old(keys)[i].identity != old(keys)[j].identity) ==>
        forall i, j :: 0 <= i < j < |keys| ==> keys[i].identity != keys[j].identity
      ensures written <==> LookupKey(old(keys), identity) != Some(publicKey)
      ensures !written ==> keys == old(keys)
      ensures written ==> keys == var i, entry := FindIndex(old(keys), identity), Entry(identity, publicKey, addedAt);
        if i < |old(keys)| then old(keys)[i := entry] else old(keys) + [entry]
    {
      var i := FindIndex(keys, identity);
      if i < |keys| {
        if keys[i].publicKey == publicKey {
          return false;
        }
        ghost var before := keys;
        keys := keys[i := Entry(identity, publicKey, addedAt)];
        forall other | true
          ensures FindIndex(keys, other) == FindIndex(before, other)
        {
          SameIndex(before, keys, other);
        }
      } else {
        ghost var before := keys;
        keys := keys + [Entry(identity, publicKey, addedAt)];
        forall other | other != identity
          ensures LookupKey(keys, other) == LookupKey(before, other)
        {
          IndexIs(keys, other, if FindIndex(before, other) < |before| then FindIndex(before, other) else |keys|);
        }
        IndexIs(keys, identity, |before|);
      }
      written := true;
    }
  }
}
