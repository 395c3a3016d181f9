/** File names for message types: percent-encoded, bounded, and told apart by a digest when cut. */
module Slug {
  import opened Prelude
  import opened Bytes

  /** The first 16 hexadecimal digits of a hash. */
  type Digest16 = s: string | |s| == 16 && forall c :: c in s ==> '0' <= c <= '9' || 'a' <= c <= 'f'
    witness "0000000000000000"

  datatype SlugResult = Named(slug: string) | HasNul | MaxLengthTooSmall

  /** An upper-case hexadecimal digit. */
  function HexDigit(n: int): char
    requires 0 <= n < 16
  {
    if n < 10 then (48 + n) as char else (55 + n) as char
  }

  /** Names of devices: CON, PRN, AUX, NUL, COM1 to COM9 and LPT1 to LPT9. */
  predicate Device(u: string) {
    || u == "CON" || u == "PRN" || u == "AUX" || u == "NUL"
    || (|u| == 4 && (u[..3] == "COM" || u[..3] == "LPT") && '1' <= u[3] <= '9')
  }

  predicate SafeByte(b: int) {
    || 65 <= b <= 90 || 97 <= b <= 122 || 48 <= b <= 57
    || b == 46 || b == 95 || b == 45
  }

  function Percent(b: byte): string {
    ['%', HexDigit(b / 16), HexDigit(b % 16)]
  }

  function Piece(b: byte): (p: string)
    ensures |p| == 1 || |p| == 3
  {
    if SafeByte(b) then [b as char] else Percent(b)
  }

  function PiecesOf(raw: bytes): (p: seq<string>)
    ensures |p| == |raw|
  {
    if raw == [] then [] else [Piece(raw[0])] + PiecesOf(raw[1..])
  }

  /** The tokens of a name: an empty name is `%00`, and a leading dot is always encoded. */
  function Tokens(raw: bytes): (p: seq<string>)
    ensures |p| == (if raw == [] then 1 else |raw|)
  {
    if raw == [] then ["%00"]
    else if raw[0] == 46 then ["%2E"] + PiecesOf(raw[1..])
    else PiecesOf(raw)
  }

  function UpperChar(c: char): char {
    if 'a' <= c <= 'z' then (c as int - 32) as char else c
  }

  function Upper(s: string): (u: string)
    ensures |u| == |s|
    ensures forall i :: 0 <= i < |s| ==> u[i] == UpperChar(s[i])
  {
    if s == "" then "" else [UpperChar(s[0])] + Upper(s[1..])
  }

  /** The part of a file name before its first dot. */
  function Stem(s: string): (t: string)
    ensures t <= s && '.' !in t
    ensures |t| == |s| || s[|t|] == '.'
  {
    if s == "" || s[0] == '.' then "" else [s[0]] + Stem(s[1..])
  }

  /** The name is one that Windows keeps for a device, with or without an extension. */
  predicate ReservedName(s: string) {
    Device(Upper(Stem(s)))
  }

  function Plain(raw: bytes): string {
    Concat(Tokens(raw))
  }

  function EscapeFirst(s: string): string
    requires s != "" && s[0] as int < 256
  {
    Percent(s[0] as int) + s[1..]
  }

  /** The name in full, before any cut. */
  function Whole(raw: bytes): string {
    if !ReservedName(Plain(raw)) then Plain(raw)
    else
      ReservedShape(Plain(raw));
      EscapeFirst(Plain(raw))
  }

  /** How many leading tokens fit into `room` characters. */
  function FittingCount(tokens: seq<string>, room: int): (k: nat)
    ensures k <= |tokens|
  {
    if tokens == [] || |tokens[0]| > room then 0
    else 1 + FittingCount(tokens[1..], room - |tokens[0]|)
  }

  function KeptCount(raw: bytes, maxLength: nat): nat {
    FittingCount(Tokens(raw), maxLength - 17)
  }

  function SlugOf(raw: bytes, maxLength: nat, digest: bytes -> Digest16): string {
    if |Whole(raw)| <= maxLength then Whole(raw)
    else Concat(Tokens(raw)[..KeptCount(raw, maxLength)]) + "~" + digest(raw)
  }

  predicate Truncated(raw: bytes, maxLength: nat) {
    |Whole(raw)| > maxLength
  }

  predicate DeviceChar(c: char) {
    'A' <= c <= 'Z' || '1' <= c <= '9'
  }

  lemma DeviceShape(u: string)
    requires Device(u)
    ensures 3 <= |u| <= 4
    ensures forall i :: 0 <= i < |u| ==> DeviceChar(u[i])
  {
    if u != "CON" && u != "PRN" && u != "AUX" && u != "NUL" {
      assert u[0] == u[..3][0] && u[1] == u[..3][1] && u[2] == u[..3][2];
    }
  }

  lemma {:induction false} ReservedShape(s: string)
    requires ReservedName(s)
    ensures 3 <= |Stem(s)| <= 4 && s != "" && s[0] != '%' && s[0] != '.'
    ensures s[0] as int < 128 && SafeByte(s[0] as int)
    ensures '~' !in Stem(s)
  {
    var u := Upper(Stem(s));
    DeviceShape(u);
    assert u[0] == UpperChar(s[0]) && DeviceChar(u[0]);
    forall i | 0 <= i < |Stem(s)|
      ensures Stem(s)[i] != '~'
    {
      assert DeviceChar(u[i]);
    }
  }

  // ----- Decoding -----

  function HexValue(c: char): int {
    if '0' <= c <= '9' then c as int - 48
    else if 'A' <= c <= 'F' then c as int - 55
    else if 'a' <= c <= 'f' then c as int - 87
    else -1
  }

  /** Percent-decoding: section 2.1 of RFC 3986. */
  function Decode(s: string): seq<int> {
    if s == "" then []
    else if s[0] == '%' && |s| >= 3 && HexValue(s[1]) >= 0 && HexValue(s[2]) >= 0 then
      [16 * HexValue(s[1]) + HexValue(s[2])] + Decode(s[3..])
    else [s[0] as int] + Decode(s[1..])
  }

  lemma FixedTokens()
    ensures Percent(0) == "%00" && Percent(46) == "%2E"
  {
  }

  lemma {:induction false} PercentDecodes(b: byte, rest: string)
    ensures Decode(Percent(b) + rest) == [b as int] + Decode(rest)
  {
    var s := Percent(b) + rest;
    assert s[3..] == rest;
  }

  lemma {:induction false} PieceDecodes(b: byte, rest: string)
    ensures Decode(Piece(b) + rest) == [b as int] + Decode(rest)
  {
    if SafeByte(b) {
      var s := Piece(b) + rest;
      assert s[1..] == rest;
    } else {
      PercentDecodes(b, rest);
    }
  }

  lemma {:induction false} PiecesDecode(raw: bytes)
    ensures Decode(Concat(PiecesOf(raw))) == raw
  {
    if raw != [] {
      var tail := Concat(PiecesOf(raw)[1..]);
      assert PiecesOf(raw)[1..] == PiecesOf(raw[1..]);
      PieceDecodes(raw[0], tail);
      PiecesDecode(raw[1..]);
      assert raw == [raw[0]] + raw[1..];
    }
  }

  /** The bytes a token list stands for: `%00` stands for the empty name. */
  ghost function Meaning(raw: bytes): seq<int> {
    if raw == [] then [0] else raw
  }

  lemma PlainDecodes(raw: bytes)
    ensures Decode(Plain(raw)) == Meaning(raw)
  {
    FixedTokens();
    if raw == [] {
      assert Concat(["%00"]) == Percent(0) + "";
      PercentDecodes(0, "");
    } else if raw[0] == 46 {
      assert Tokens(raw)[1..] == PiecesOf(raw[1..]);
      PercentDecodes(46, Concat(PiecesOf(raw[1..])));
      PiecesDecode(raw[1..]);
    } else {
      PiecesDecode(raw);
    }
  }

  /** An untruncated slug decodes to the name's bytes. */
  lemma WholeDecodes(raw: bytes)
    ensures Decode(Whole(raw)) == Meaning(raw)
  {
    PlainDecodes(raw);
    var p := Plain(raw);
    if ReservedName(p) {
      ReservedShape(p);
      PercentDecodes(p[0] as int, p[1..]);
    }
  }

  lemma WholeInjective(a: bytes, b: bytes)
    requires 0 !in a && 0 !in b && Whole(a) == Whole(b)
    ensures a == b
  {
    WholeDecodes(a);
    WholeDecodes(b);
    assert a == [] ==> Meaning(b)[0] == 0;
    assert b == [] ==> Meaning(a)[0] == 0;
  }

  // ----- Alphabet and length -----

  /** Letters, digits and the four characters `.`, `_`, `-` and `%`. */
  predicate SlugChar(c: char) {
    c == '%' || SafeByte(c as int)
  }

  predicate SlugText(s: string) {
    forall c {:trigger SlugChar(c)} :: c in s ==> SlugChar(c)
  }

  lemma SlugTextConcat(a: string, b: string)
    requires SlugText(a) && SlugText(b)
    ensures SlugText(a + b)
  {
  }

  lemma PercentIsSlugText(b: byte)
    ensures SlugText(Percent(b))
  {
  }

  lemma {:induction false} PiecesAreSlugText(raw: bytes)
    ensures SlugText(Concat(PiecesOf(raw)))
  {
    if raw != [] {
      assert PiecesOf(raw)[1..] == PiecesOf(raw[1..]);
      PercentIsSlugText(raw[0]);
      PiecesAreSlugText(raw[1..]);
      SlugTextConcat(Piece(raw[0]), Concat(PiecesOf(raw[1..])));
    }
  }

  /** The text before any repair of device names: slug characters only, not empty, no leading dot. */
  lemma PlainIsSafe(raw: bytes)
    ensures SlugText(Plain(raw)) && Plain(raw) != "" && Plain(raw)[0] != '.'
  {
    if raw == [] {
      assert Plain(raw) == "%00" + Concat([]) == "%00";
    } else {
      assert PiecesOf(raw)[1..] == PiecesOf(raw[1..]);
      PiecesAreSlugText(raw);
      PiecesAreSlugText(raw[1..]);
      PercentIsSlugText(raw[0]);
      var rest := Concat(PiecesOf(raw[1..]));
      if raw[0] == 46 {
        assert Plain(raw) == "%2E" + rest;
        SlugTextConcat("%2E", rest);
      } else {
        assert Plain(raw) == Piece(raw[0]) + rest;
      }
    }
  }

  lemma WholeIsSafe(raw: bytes)
    ensures SlugText(Whole(raw)) && Whole(raw) != "" && Whole(raw)[0] != '.'
    ensures !ReservedName(Whole(raw))
  {
    PlainIsSafe(raw);
    var p := Plain(raw);
    if ReservedName(p) {
      ReservedShape(p);
      PercentIsSlugText(p[0] as int);
      assert SlugText(p[1..]);
      SlugTextConcat(Percent(p[0] as int), p[1..]);
      assert Whole(raw)[0] == '%';
      if ReservedName(Whole(raw)) {
        ReservedShape(Whole(raw));
        assert false;
      }
    }
  }

  lemma {:induction false} FittingFits(tokens: seq<string>, room: nat)
    ensures |Concat(tokens[..FittingCount(tokens, room)])| <= room
    ensures FittingCount(tokens, room) < |tokens| ==>
              |Concat(tokens[..FittingCount(tokens, room) + 1])| > room
  {
    if tokens != [] && |tokens[0]| <= room {
      var k := FittingCount(tokens, room);
      FittingFits(tokens[1..], room - |tokens[0]|);
      assert tokens[..k][1..] == tokens[1..][..k - 1];
      if k < |tokens| {
        assert tokens[..k + 1][1..] == tokens[1..][..k];
      }
    } else if tokens != [] {
      assert Concat(tokens[..1]) == tokens[0] + Concat(tokens[..1][1..]);
    }
  }

  lemma {:induction false} PrefixLength(tokens: seq<string>, k: nat)
    requires k < |tokens|
    ensures |Concat(tokens[..k + 1])| == |Concat(tokens[..k])| + |tokens[k]|
  {
    ConcatSplit(tokens[..k + 1], k);
    assert tokens[..k + 1][..k] == tokens[..k] && tokens[..k + 1][k..] == [tokens[k]];
    assert Concat([tokens[k]]) == tokens[k] + Concat([]);
  }

  lemma {:induction false} PieceAt(raw: bytes, i: nat)
    requires i < |raw|
    ensures PiecesOf(raw)[i] == Piece(raw[i])
  {
    if i > 0 {
      PieceAt(raw[1..], i - 1);
    }
  }

  lemma TokenLength(raw: bytes, i: nat)
    requires i < |Tokens(raw)|
    ensures |Tokens(raw)[i]| <= 3
  {
    if raw != [] && raw[0] == 46 && i > 0 {
      PieceAt(raw[1..], i - 1);
    } else if raw != [] && raw[0] != 46 {
      PieceAt(raw, i);
    }
  }

  lemma {:induction false} PiecesOfPrefix(raw: bytes, k: nat)
    requires k <= |raw|
    ensures PiecesOf(raw)[..k] == PiecesOf(raw[..k])
  {
    if k > 0 {
      PiecesOfPrefix(raw[1..], k - 1);
      assert raw[..k][1..] == raw[1..][..k - 1];
      assert PiecesOf(raw)[..k] == [Piece(raw[0])] + PiecesOf(raw[1..])[..k - 1];
    }
  }

  /** Cutting the tokens is cutting the name: a kept token is the token of a kept byte. */
  lemma TokensOfPrefix(raw: bytes, k: nat)
    requires 0 < k <= |raw|
    ensures Tokens(raw)[..k] == Tokens(raw[..k])
  {
    if raw[0] == 46 {
      PiecesOfPrefix(raw[1..], k - 1);
      assert raw[..k][1..] == raw[1..][..k - 1];
      assert Tokens(raw)[..k] == ["%2E"] + PiecesOf(raw[1..])[..k - 1];
    } else {
      PiecesOfPrefix(raw, k);
    }
  }

  // ----- What a cut slug says -----

  /** The bytes of the name that a cut slug still shows. */
  function KeptBytes(raw: bytes, maxLength: nat): bytes {
    if KeptCount(raw, maxLength) <= |raw| then raw[..KeptCount(raw, maxLength)] else raw
  }

  lemma WholeLength(raw: bytes)
    ensures |Whole(raw)| <= |Plain(raw)| + 2
    ensures raw == [] ==> |Plain(raw)| == 3
  {
    assert Concat(["%00"]) == "%00" + Concat([]);
    PlainIsSafe(raw);
  }

  /** Short tokens that do not all fit fill the room but for two characters. */
  lemma {:induction false} FittingFills(tokens: seq<string>, room: nat)
    requires room >= 3 && |Concat(tokens)| > room
    requires forall i :: 0 <= i < |tokens| ==> |tokens[i]| <= 3
    ensures 0 < FittingCount(tokens, room) < |tokens|
    ensures room - 2 <= |Concat(tokens[..FittingCount(tokens, room)])| <= room
  {
    var k := FittingCount(tokens, room);
    FittingFits(tokens, room);
    assert tokens[..|tokens|] == tokens && tokens[..0] == [];
    PrefixLength(tokens, k);
  }

  /** A slug that is cut keeps a token at least and loses one at least. */
  lemma CutCount(raw: bytes, maxLength: nat)
    requires maxLength >= 32 && Truncated(raw, maxLength)
    ensures 0 < KeptCount(raw, maxLength) < |Tokens(raw)| == |raw|
    ensures maxLength - 19 <= |Concat(Tokens(raw)[..KeptCount(raw, maxLength)])| <= maxLength - 17
  {
    WholeLength(raw);
    forall i | 0 <= i < |Tokens(raw)|
      ensures |Tokens(raw)[i]| <= 3
    {
      TokenLength(raw, i);
    }
    FittingFills(Tokens(raw), maxLength - 17);
  }

  /** A cut slug shows whole bytes of the name, as many as leave room for `~` and the digest. */
  lemma CutSlugIs(raw: bytes, maxLength: nat, digest: bytes -> Digest16)
    requires maxLength >= 32 && Truncated(raw, maxLength)
    ensures KeptBytes(raw, maxLength) != [] && KeptBytes(raw, maxLength) <= raw
    ensures SlugOf(raw, maxLength, digest) == Plain(KeptBytes(raw, maxLength)) + "~" + digest(raw)
    ensures Plain(KeptBytes(raw, maxLength)) <= Plain(raw)
    ensures maxLength - 19 <= |Plain(KeptBytes(raw, maxLength))| <= maxLength - 17
  {
    CutCount(raw, maxLength);
    TokensOfPrefix(raw, KeptCount(raw, maxLength));
    ConcatSplit(Tokens(raw), KeptCount(raw, maxLength));
  }

  /** Every slug fits, and a cut one wastes at most two characters. */
  lemma SlugFits(raw: bytes, maxLength: nat, digest: bytes -> Digest16)
    requires maxLength >= 32
    ensures |SlugOf(raw, maxLength, digest)| <= maxLength
    ensures Truncated(raw, maxLength) ==> |SlugOf(raw, maxLength, digest)| >= maxLength - 2
  {
    if Truncated(raw, maxLength) {
      CutSlugIs(raw, maxLength, digest);
    }
  }

  /** `~` stands in a slug exactly when it was cut, so cut and uncut slugs never meet. */
  lemma TildeIffCut(raw: bytes, maxLength: nat, digest: bytes -> Digest16)
    requires maxLength >= 32
    ensures '~' in SlugOf(raw, maxLength, digest) <==> Truncated(raw, maxLength)
  {
    if Truncated(raw, maxLength) {
      CutSlugIs(raw, maxLength, digest);
      assert SlugOf(raw, maxLength, digest)[|Plain(KeptBytes(raw, maxLength))|] == '~';
    } else {
      WholeIsSafe(raw);
      assert !SlugChar('~');
    }
  }

  lemma CutSlugsEqual(a: bytes, b: bytes, maxLength: nat, digest: bytes -> Digest16)
    requires maxLength >= 32 && 0 !in a && 0 !in b
    requires Truncated(a, maxLength) && Truncated(b, maxLength)
    requires SlugOf(a, maxLength, digest) == SlugOf(b, maxLength, digest)
    ensures KeptBytes(a, maxLength) == KeptBytes(b, maxLength) && digest(a) == digest(b)
  {
    CutSlugIs(a, maxLength, digest);
    CutSlugIs(b, maxLength, digest);
    var x, y := KeptBytes(a, maxLength), KeptBytes(b, maxLength);
    Associative(Plain(x), "~", digest(a));
    Associative(Plain(y), "~", digest(b));
    SplitEqual(Plain(x), "~" + digest(a), Plain(y), "~" + digest(b));
    SplitEqual("~", digest(a), "~", digest(b));
    PlainDecodes(x);
    PlainDecodes(y);
  }

  /**
   * Two names share a file name exactly when they are the same name, or both were cut, show the same
   * leading bytes, and have the same digest.
   */
  lemma SameSlugIff(a: bytes, b: bytes, maxLength: nat, digest: bytes -> Digest16)
    requires maxLength >= 32 && 0 !in a && 0 !in b
    ensures SlugOf(a, maxLength, digest) == SlugOf(b, maxLength, digest) <==>
            || a == b
            || (&& Truncated(a, maxLength) && Truncated(b, maxLength)
                && KeptBytes(a, maxLength) == KeptBytes(b, maxLength) && digest(a) == digest(b))
  {
    TildeIffCut(a, maxLength, digest);
    TildeIffCut(b, maxLength, digest);
    if Truncated(a, maxLength) && Truncated(b, maxLength) {
      CutSlugIs(a, maxLength, digest);
      CutSlugIs(b, maxLength, digest);
      if SlugOf(a, maxLength, digest) == SlugOf(b, maxLength, digest) {
        CutSlugsEqual(a, b, maxLength, digest);
      }
    } else if !Truncated(a, maxLength) && !Truncated(b, maxLength) {
      if Whole(a) == Whole(b) {
        WholeInjective(a, b);
      }
    }
  }

  lemma NoSlash(d: Digest16)
    ensures '/' !in d
  {
  }

  /** No slug is empty, hidden, `.` or `..`, and none holds a path separator. */
  lemma SlugIsOneFileName(raw: bytes, maxLength: nat, digest: bytes -> Digest16)
    requires maxLength >= 32
    ensures var s := SlugOf(raw, maxLength, digest);
            s != "" && s[0] != '.' && '/' !in s
  {
    var s := SlugOf(raw, maxLength, digest);
    if Truncated(raw, maxLength) {
      CutSlugIs(raw, maxLength, digest);
      var kept := Plain(KeptBytes(raw, maxLength));
      PlainIsSafe(KeptBytes(raw, maxLength));
      assert !SlugChar('/');
      NoSlash(digest(raw));
    } else {
      WholeIsSafe(raw);
      assert !SlugChar('/');
    }
  }

  // ----- Device names -----

  lemma {:induction false} StemOfConcat(p: string, rest: string)
    ensures Stem(p + rest) == if '.' in p then Stem(p) else p + Stem(rest)
  {
    if p == "" {
      assert p + rest == rest;
    } else if p[0] != '.' {
      assert (p + rest)[1..] == p[1..] + rest;
      StemOfConcat(p[1..], rest);
      assert p == [p[0]] + p[1..];
    }
  }

  lemma {:induction false} NoDotStem(s: string)
    requires '.' !in s
    ensures Stem(s) == s
  {
    if s != "" {
      NoDotStem(s[1..]);
    }
  }

  /**
   * A slug is a device name exactly when the name's own text is one and the slug was cut: the repair of
   * the first character is lost in the cut.
   */
  lemma DeviceSlugIff(raw: bytes, maxLength: nat, digest: bytes -> Digest16)
    requires maxLength >= 32
    ensures ReservedName(SlugOf(raw, maxLength, digest)) <==>
            Truncated(raw, maxLength) && ReservedName(Plain(raw))
  {
    if !Truncated(raw, maxLength) {
      WholeIsSafe(raw);
      return;
    }
    CutSlugIs(raw, maxLength, digest);
    var kept := Plain(KeptBytes(raw, maxLength));
    var s := SlugOf(raw, maxLength, digest);
    var rest := Plain(raw)[|kept|..];
    Associative(kept, "~", digest(raw));
    assert s == kept + ("~" + digest(raw)) && Plain(raw) == kept + rest;
    StemOfConcat(kept, "~" + digest(raw));
    StemOfConcat(kept, rest);
    if '.' !in kept {
      assert |Stem(s)| > 4 && |Stem(Plain(raw))| > 4;
      if ReservedName(s) {
        ReservedShape(s);
        assert false;
      }
      if ReservedName(Plain(raw)) {
        ReservedShape(Plain(raw));
        assert false;
      }
    }
  }

  lemma PiecesOfFour(raw: bytes)
    requires |raw| >= 4 && raw[0] != 46
    ensures Plain(raw) ==
            Piece(raw[0]) + (Piece(raw[1]) + (Piece(raw[2]) + (Piece(raw[3]) + Concat(PiecesOf(raw[4..])))))
  {
    ConcatOfPieces(raw);
    ConcatOfPieces(raw[1..]);
    assert raw[1..][1..] == raw[2..];
    ConcatOfPieces(raw[2..]);
    assert raw[2..][1..] == raw[3..];
    ConcatOfPieces(raw[3..]);
    assert raw[3..][1..] == raw[4..];
  }

  lemma {:induction false} ConcatOfPieces(raw: bytes)
    requires raw != []
    ensures Concat(PiecesOf(raw)) == Piece(raw[0]) + Concat(PiecesOf(raw[1..]))
  {
    assert PiecesOf(raw)[1..] == PiecesOf(raw[1..]);
  }

  lemma {:induction false} SafeLength(raw: bytes)
    ensures |Concat(PiecesOf(raw))| >= |raw|
  {
    if raw != [] {
      ConcatOfPieces(raw);
      SafeLength(raw[1..]);
    }
  }

  lemma ConIsDevice(rest: string)
    ensures ReservedName("CON." + rest)
  {
    StemOfConcat("CON.", rest);
    StemOfConcat("CON", ".");
    assert "CON" + "." == "CON.";
    NoDotStem("CON");
    assert Upper("CON") == "CON";
  }

  lemma {:induction false} ConPlain(tail: bytes)
    ensures Plain([67, 79, 78, 46] + tail) == "CON." + Concat(PiecesOf(tail))
  {
    var raw := [67, 79, 78, 46] + tail;
    PiecesOfFour(raw);
    assert raw[4..] == tail;
    assert Piece(67) == "C" && Piece(79) == "O" && Piece(78) == "N" && Piece(46) == ".";
    FourLetters(Concat(PiecesOf(tail)));
  }

  lemma FourLetters(rest: string)
    ensures "C" + ("O" + ("N" + ("." + rest))) == "CON." + rest
  {
  }

  /** `CON.` followed by at least 29 bytes, cut to 32 characters, is still a device name. */
  lemma LongDeviceNameSurvives(tail: bytes, digest: bytes -> Digest16)
    requires |tail| >= 29
    ensures ReservedName(SlugOf([67, 79, 78, 46] + tail, 32, digest))
  {
    ConPlain(tail);
    ConIsDevice(Concat(PiecesOf(tail)));
    SafeLength(tail);
    DeviceSlugIff([67, 79, 78, 46] + tail, 32, digest);
  }

  // ----- The operation -----

  /** The file name of a type name given as UTF-8 bytes. */
  method TypeToSlug(raw: bytes, maxLength: int, digest: bytes -> Digest16) returns (r: SlugResult)
    ensures r == if 0 in raw then HasNul
                 else if maxLength < 32 then MaxLengthTooSmall
                 else Named(SlugOf(raw, maxLength, digest))
  {
    if 0 in raw {
      return HasNul;
    }
    if maxLength < 32 {
      return MaxLengthTooSmall;
    }
    var tokens := PiecesOf(raw);
    if tokens == [] {
      tokens := ["%00"];
    }
    if tokens[0] == "." {
      tokens := tokens[0 := "%2E"];
    }
    assert tokens == Tokens(raw);
    var slug := Concat(tokens);
    if Device(Upper(Stem(slug))) {
      ReservedShape(slug);
      slug := Percent(slug[0] as int) + slug[1..];
    }
    if |slug| > maxLength {
      var prefix := CutTokens(tokens, maxLength - 17);
      slug := Concat(prefix) + "~" + digest(raw);
    }
    SlugIsOneFileName(raw, maxLength, digest);
    if slug == "" || slug == "." || slug == ".." || '/' in slug {
      assert false;
    }
    r := Named(slug);
  }

  /** Takes tokens while they fit into `room` characters. */
  method CutTokens(tokens: seq<string>, room: nat) returns (prefix: seq<string>)
    ensures prefix == tokens[..FittingCount(tokens, room)]
  {
    prefix := [];
    var prefixLength := 0;
    for i := 0 to |tokens|
      invariant prefix == tokens[..i] && prefixLength <= room
      invariant FittingCount(tokens, room) == i + FittingCount(tokens[i..], room - prefixLength)
    {
      if prefixLength + |tokens[i]| > room {
        break;
      }
      assert tokens[i..][1..] == tokens[i + 1..];
      prefix := prefix + [tokens[i]];
      prefixLength := prefixLength + |tokens[i]|;
    }
  }
}
