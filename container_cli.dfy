/**
 * The input validators of the container commands of the command-line
 * client: the basic-ACL parser (keywords, then a hexadecimal mask), the
 * `Key=Value` attribute parser and the empty guard of the container-ID
 * parser. Flags and the clock are parameters.
 */
module ContainerCli {
  import opened GoInts
  import opened Wrappers

  // ------------------------------------------------------------ strings

  /** ASCII `strings.ToLower` of one character. */
  function LowerChar(c: char): char
  {
    if 'A' <= c <= 'Z' then (c as int + 32) as char else c
  }

  /** `strings.ToLower`, for ASCII letters. */
  function Lower(s: string): (r: string)
    ensures |r| == |s|
    ensures forall i :: 0 <= i < |s| ==> r[i] == LowerChar(s[i])
  {
    seq(|s|, i requires 0 <= i < |s| => LowerChar(s[i]))
  }

  /** A string without upper-case ASCII letters is its own lower case. */
  lemma LowerUnchanged(s: string)
    requires forall i :: 0 <= i < |s| ==> !('A' <= s[i] <= 'Z')
    ensures Lower(s) == s
  {
  }

  /** `strings.TrimLeft(s, cutset)`: drops leading characters that are in the cut set. */
  function TrimLeft(s: string, cut: set<char>): (r: string)
    ensures |r| <= |s| && r == s[|s| - |r|..]
    ensures forall i :: 0 <= i < |s| - |r| ==> s[i] in cut
    ensures |r| > 0 ==> r[0] !in cut
  {
    if |s| > 0 && s[0] in cut then TrimLeft(s[1..], cut) else s
  }

  /** `strings.TrimRight(s, cutset)`: drops trailing characters that are in the cut set. */
  function TrimRight(s: string, cut: set<char>): (r: string)
    ensures |r| <= |s| && r == s[..|r|]
    ensures forall i :: |r| <= i < |s| ==> s[i] in cut
    ensures |r| > 0 ==> r[|r| - 1] !in cut
  {
    if |s| > 0 && s[|s| - 1] in cut then TrimRight(s[..|s| - 1], cut) else s
  }

  /** `strings.Trim(s, cutset)`: both ends, the left one first. */
  function Trim(s: string, cut: set<char>): string
  {
    TrimRight(TrimLeft(s, cut), cut)
  }

  // ------------------------------------------------------------ hexadecimal numbers

  predicate IsHexDigit(c: char)
  {
    '0' <= c <= '9' || 'a' <= c <= 'f' || 'A' <= c <= 'F'
  }

  predicate AllHex(s: string)
  {
    forall i :: 0 <= i < |s| ==> IsHexDigit(s[i])
  }

  function DigitValue(c: char): (d: nat)
    requires IsHexDigit(c)
    ensures d < 16
    ensures d == 0 <==> c == '0'
  {
    if '0' <= c <= '9' then c as int - '0' as int
    else if 'a' <= c <= 'f' then c as int - 'a' as int + 10
    else c as int - 'A' as int + 10
  }

  /** The number a string of hexadecimal digits denotes, most significant digit first. */
  function HexValue(s: string): nat
    requires AllHex(s)
  {
    if |s| == 0 then 0 else 16 * HexValue(s[..|s| - 1]) + DigitValue(s[|s| - 1])
  }

  /**
   * `strconv.ParseUint(s, 16, 32)`: a non-empty string of hexadecimal
   * digits (no sign, no `0x` prefix, no underscores in base 16) whose
   * value fits 32 bits, else an error.
   */
  function ParseHex32(s: string): (r: Option<uint32>)
    ensures r.Some? <==> |s| > 0 && AllHex(s) && HexValue(s) < TWO_32
    ensures r.Some? ==> r.value == HexValue(s)
  {
    if |s| == 0 || !AllHex(s) then None
    else if HexValue(s) >= TWO_32 then None
    else Some(HexValue(s))
  }

  function HexChar(d: nat): (c: char)
    requires d < 16
    ensures IsHexDigit(c) && DigitValue(c) == d
    ensures c != 'x' && !('A' <= c <= 'Z')
  {
    "0123456789abcdef"[d]
  }

  /** `strconv.FormatUint(v, 16)`, the form in which the client prints a basic ACL. */
  function FormatHex(v: nat): (r: string)
    ensures |r| > 0
    decreases v
  {
    if v < 16 then [HexChar(v)] else FormatHex(v / 16) + [HexChar(v % 16)]
  }

  /** Formatting then reading back gives the number: lower-case digits, most significant first. */
  lemma {:induction false} FormatHexValue(v: nat)
    ensures AllHex(FormatHex(v))
    ensures HexValue(FormatHex(v)) == v
    ensures forall i :: 0 <= i < |FormatHex(v)| ==> FormatHex(v)[i] != 'x' && !('A' <= FormatHex(v)[i] <= 'Z')
    decreases v
  {
    if v >= 16 {
      FormatHexValue(v / 16);
      var s := FormatHex(v);
      assert s == FormatHex(v / 16) + [HexChar(v % 16)];
      assert s[..|s| - 1] == FormatHex(v / 16);
    }
  }

  /** Only the number 0 is printed with a leading zero digit. */
  lemma {:induction false} FormatHexLeading(v: nat)
    ensures FormatHex(v)[0] == '0' ==> v == 0
    decreases v
  {
    if v >= 16 {
      FormatHexLeading(v / 16);
      assert FormatHex(v)[0] == FormatHex(v / 16)[0];
    }
  }

  // ------------------------------------------------------------ basic ACL

  const BasicACLPublic := "public-read-write"
  const BasicACLPrivate := "private"
  const BasicACLReadOnly := "public-read"

  /** The predefined rules behind the three keywords. */
  const PublicBasicRule: uint32 := 0x1FBF_BFFF
  const PrivateBasicRule: uint32 := 0x1C8C_8CCC
  const ReadOnlyBasicRule: uint32 := 0x1FBF_8CFF

  predicate IsKeyword(s: string)
  {
    s == BasicACLPublic || s == BasicACLPrivate || s == BasicACLReadOnly
  }

  /** The cut set `"0x"` that `strings.Trim` is given. */
  const ZeroX: set<char> := {'0', 'x'}

  /** What the default branch hands to the hexadecimal parser. */
  function TrimmedACL(s: string): string
  {
    Trim(Lower(s), ZeroX)
  }

  function ACLError(s: string): string
  {
    "can't parse basic ACL: " + s
  }

  /** The default branch of `parseBasicACL`: the trimmed string read as a 32-bit hexadecimal number. */
  function DefaultACL(s: string): (r: Result<uint32, string>)
    ensures var t := TrimmedACL(s);
      r.Ok? <==> |t| > 0 && AllHex(t) && HexValue(t) < TWO_32
    ensures r.Ok? ==> r.value == HexValue(TrimmedACL(s))
    ensures r.Err? ==> r.error == ACLError(TrimmedACL(s))
  {
    match ParseHex32(TrimmedACL(s))
    case None => Err(ACLError(TrimmedACL(s)))
    case Some(v) => Ok(Uint32(v))
  }

  /**
   * `parseBasicACL` as written: a keyword maps to its rule; anything
   * else is lower-cased, stripped of every leading and trailing `0` and
   * `x`, and read as a 32-bit hexadecimal number.
   */
  function ParseBasicACL(s: string): (r: Result<uint32, string>)
    ensures s == BasicACLPublic ==> r == Ok(PublicBasicRule)
    ensures s == BasicACLPrivate ==> r == Ok(PrivateBasicRule)
    ensures s == BasicACLReadOnly ==> r == Ok(ReadOnlyBasicRule)
    ensures !IsKeyword(s) ==> r == DefaultACL(s)
  {
    if s == BasicACLPublic then Ok(PublicBasicRule)
    else if s == BasicACLPrivate then Ok(PrivateBasicRule)
    else if s == BasicACLReadOnly then Ok(ReadOnlyBasicRule)
    else DefaultACL(s)
  }

  /**
   * The trimmed string neither starts nor ends with `0` or `x`, so a
   * number read from it never ends in a zero hexadecimal digit.
   */
  lemma DefaultACLNoTrailingZero(s: string)
    requires DefaultACL(s).Ok?
    ensures DefaultACL(s).value % 16 != 0
  {
    var t := TrimmedACL(s);
    assert |t| > 0 && AllHex(t) && DefaultACL(s).value == HexValue(t);
    assert t[|t| - 1] != '0';
    LastDigitNonzero(t);
  }

  /** A number whose last hexadecimal digit is not `0` is no multiple of 16. */
  lemma LastDigitNonzero(t: string)
    requires |t| > 0 && AllHex(t) && t[|t| - 1] != '0'
    ensures HexValue(t) % 16 != 0
  {
    var d := DigitValue(t[|t| - 1]);
    var q := HexValue(t[..|t| - 1]);
    assert HexValue(t) == 16 * q + d;
    LowDigit(q, d);
  }

  lemma LowDigit(q: nat, d: nat)
    requires d < 16
    ensures (16 * q + d) % 16 == d
  {
  }

  /** A string that does not start with `p` is none of the keywords. */
  lemma NotKeyword(s: string)
    requires |s| > 0 && s[0] != 'p'
    ensures !IsKeyword(s)
  {
    assert BasicACLPublic[0] == 'p' && BasicACLPrivate[0] == 'p' && BasicACLReadOnly[0] == 'p';
  }

  lemma NotInZeroX(s: string)
    requires |s| > 0 && s[0] == '1'
    ensures TrimLeft(s, ZeroX) == s
  {
    assert s[0] !in ZeroX;
  }

  /** "0x10" is trimmed to "1". */
  lemma Trimmed0x10()
    ensures TrimmedACL("0x10") == "1"
  {
    LowerUnchanged("0x10");
    assert "0x10"[0] in ZeroX && "0x10"[1..] == "x10";
    assert TrimLeft("0x10", ZeroX) == TrimLeft("x10", ZeroX);
    assert "x10"[0] in ZeroX && "x10"[1..] == "10";
    assert TrimLeft("x10", ZeroX) == TrimLeft("10", ZeroX);
    NotInZeroX("10");
    assert "10"[..1] == "1";
  }

  /** "10" is trimmed to "1". */
  lemma Trimmed10()
    ensures TrimmedACL("10") == "1"
  {
    LowerUnchanged("10");
    assert TrimLeft("10", ZeroX) == "10";
    assert "10"[..1] == "1";
  }

  /** "0" is trimmed to nothing. */
  lemma Trimmed0()
    ensures TrimmedACL("0") == ""
  {
    LowerUnchanged("0");
    assert "0"[1..] == "";
  }

  /** "0x10" reads as 1, not 16. */
  lemma ParseBasicACLDropsZeros()
    ensures ParseBasicACL("0x10") == Ok(1)
  {
    NotKeyword("0x10");
    Trimmed0x10();
    HexOne();
  }

  /** "10", the way the client prints the mask 16, reads back as 1. */
  lemma ParseBasicACLPrinted16()
    ensures FormatHex(16) == "10" && ParseBasicACL(FormatHex(16)) == Ok(1)
  {
    assert FormatHex(16) == FormatHex(1) + [HexChar(0)];
    NotKeyword("10");
    Trimmed10();
    HexOne();
  }

  /** "0", the mask 0, cannot be entered at all. */
  lemma ParseBasicACLZero()
    ensures ParseBasicACL("0") == Err(ACLError(""))
  {
    NotKeyword("0");
    Trimmed0();
  }

  lemma HexOne()
    ensures AllHex("1") && HexValue("1") == 1
  {
    assert "1"[..0] == "";
  }

  /** What the default branch evidently means: an optional `0x` prefix before the digits. */
  function TrimPrefix0x(s: string): (r: string)
    ensures |s| >= 2 && s[..2] == "0x" ==> r == s[2..]
    ensures !(|s| >= 2 && s[..2] == "0x") ==> r == s
  {
    if |s| >= 2 && s[..2] == "0x" then s[2..] else s
  }

  /** The default branch with the prefix removed instead of the cut set trimmed. */
  function IntendedDefaultACL(s: string): (r: Result<uint32, string>)
    ensures var t := TrimPrefix0x(Lower(s));
      r.Ok? <==> |t| > 0 && AllHex(t) && HexValue(t) < TWO_32
    ensures r.Ok? ==> r.value == HexValue(TrimPrefix0x(Lower(s)))
    ensures r.Err? ==> r.error == ACLError(TrimPrefix0x(Lower(s)))
  {
    var t := TrimPrefix0x(Lower(s));
    match ParseHex32(t)
    case None => Err(ACLError(t))
    case Some(v) => Ok(Uint32(v))
  }

  /** `parseBasicACL` as evidently intended. */
  function ParseBasicACLIntended(s: string): (r: Result<uint32, string>)
    ensures s == BasicACLPublic ==> r == Ok(PublicBasicRule)
    ensures s == BasicACLPrivate ==> r == Ok(PrivateBasicRule)
    ensures s == BasicACLReadOnly ==> r == Ok(ReadOnlyBasicRule)
    ensures !IsKeyword(s) ==> r == IntendedDefaultACL(s)
  {
    if s == BasicACLPublic then Ok(PublicBasicRule)
    else if s == BasicACLPrivate then Ok(PrivateBasicRule)
    else if s == BasicACLReadOnly then Ok(ReadOnlyBasicRule)
    else IntendedDefaultACL(s)
  }

  lemma LowerHex(v: nat)
    ensures Lower(FormatHex(v)) == FormatHex(v)
    ensures Lower("0x" + FormatHex(v)) == "0x" + FormatHex(v)
  {
    FormatHexValue(v);
  }

  /**
   * Every 32-bit mask, printed in hexadecimal with or without `0x`, reads
   * back as itself.
   */
  lemma ParseBasicACLIntendedRoundTrip(v: uint32)
    ensures ParseBasicACLIntended(FormatHex(v)) == Ok(v)
    ensures ParseBasicACLIntended("0x" + FormatHex(v)) == Ok(v)
  {
    var f := FormatHex(v);
    FormatHexValue(v);
    FormatHexLeading(v);
    LowerHex(v);
    NotKeyword(f);
    NotKeyword("0x" + f);
    assert !(|f| >= 2 && f[..2] == "0x");
    assert ("0x" + f)[..2] == "0x";
    assert ("0x" + f)[2..] == f;
  }

  lemma FormatHexLast(v: nat)
    ensures FormatHex(v)[|FormatHex(v)| - 1] == HexChar(v % 16)
  {
  }

  /** A string that starts and ends outside the cut set is left as it is. */
  lemma TrimUntouched(s: string, cut: set<char>)
    requires |s| > 0 && s[0] !in cut && s[|s| - 1] !in cut
    ensures Trim(s, cut) == s
  {
  }

  /**
   * As written, a printed mask reads back as itself exactly when its
   * last hexadecimal digit is not zero (the converse is
   * `DefaultACLNoTrailingZero`).
   */
  lemma ParseBasicACLPrintedRoundTrip(v: uint32)
    requires v % 16 != 0
    ensures ParseBasicACL(FormatHex(v)) == Ok(v)
  {
    var f := FormatHex(v);
    assert !IsKeyword(f) by {
      TrimmedPrinted(v);
      NotKeyword(f);
    }
    assert TrimmedACL(f) == f by {
      TrimmedPrinted(v);
    }
    assert AllHex(f) && HexValue(f) == v by {
      FormatHexValue(v);
    }
  }

  /** A printed mask that is not a multiple of 16 has no `0` or `x` to trim. */
  lemma TrimmedPrinted(v: nat)
    requires v % 16 != 0
    ensures TrimmedACL(FormatHex(v)) == FormatHex(v)
    ensures FormatHex(v)[0] != 'p'
  {
    var f := FormatHex(v);
    FormatHexValue(v);
    FormatHexLeading(v);
    FormatHexLast(v);
    LowerHex(v);
    TrimUntouched(f, ZeroX);
  }

  // ------------------------------------------------------------ attributes

  /** A container attribute: a key and a value. */
  datatype Attribute = Attribute(key: string, value: string)

  /** The well-known attribute keys of the container library. */
  const AttributeTimestamp := "Timestamp"
  const AttributeName := "Name"
  const AttributeDelimiter: char := '='

  /** `strings.Split(s, sep)` for a one-character separator. */
  function Split(s: string, sep: char): (r: seq<string>)
    ensures |r| >= 1
    decreases |s|
  {
    if |s| == 0 then [""]
    else
      var rest := Split(s[1..], sep);
      if s[0] == sep then [""] + rest else [[s[0]] + rest[0]] + rest[1..]
  }

  /** The number of times c occurs in s. */
  function Count(s: string, c: char): nat
  {
    if |s| == 0 then 0 else (if s[0] == c then 1 else 0) + Count(s[1..], c)
  }

  /** `strings.Join(parts, sep)`: the inverse of `Split`. */
  function Join(parts: seq<string>, sep: char): string
    requires |parts| >= 1
  {
    if |parts| == 1 then parts[0] else parts[0] + [sep] + Join(parts[1..], sep)
  }

  /** Split yields one more part than there are separators, and none of the parts holds one. */
  lemma {:induction false} SplitParts(s: string, sep: char)
    ensures |Split(s, sep)| == Count(s, sep) + 1
    ensures forall k :: 0 <= k < |Split(s, sep)| ==> sep !in Split(s, sep)[k]
    decreases |s|
  {
    if |s| > 0 {
      SplitParts(s[1..], sep);
    }
  }

  /** Joining the parts back with the separator restores the string. */
  lemma {:induction false} SplitJoin(s: string, sep: char)
    ensures Join(Split(s, sep), sep) == s
    decreases |s|
  {
    if |s| > 0 {
      var rest := Split(s[1..], sep);
      SplitJoin(s[1..], sep);
      if s[0] == sep {
        assert ([""] + rest)[1..] == rest;
        assert s == [sep] + s[1..];
      } else {
        var r := [[s[0]] + rest[0]] + rest[1..];
        if |rest| == 1 {
          assert s == [s[0]] + s[1..];
        } else {
          assert r[1..] == rest[1..];
          assert Join(rest, sep) == rest[0] + [sep] + Join(rest[1..], sep);
          assert s == [s[0]] + s[1..];
        }
      }
    }
  }

  /** A string splits into exactly two parts when it holds exactly one `=`: the key before, the value after. */
  lemma SplitPair(s: string)
    requires |Split(s, AttributeDelimiter)| == 2
    ensures var kv := Split(s, AttributeDelimiter);
      kv[0] + [AttributeDelimiter] + kv[1] == s && AttributeDelimiter !in kv[0] && AttributeDelimiter !in kv[1]
  {
    SplitParts(s, AttributeDelimiter);
    SplitJoin(s, AttributeDelimiter);
    var kv := Split(s, AttributeDelimiter);
    assert kv[1..] == [kv[1]];
    assert Join(kv, AttributeDelimiter) == kv[0] + [AttributeDelimiter] + Join(kv[1..], AttributeDelimiter);
  }

  /** `strconv.FormatInt(n, 10)`. */
  function FormatDecimal(n: int): (r: string)
    ensures |r| > 0
    decreases if n < 0 then 1 - n else n
  {
    if n < 0 then "-" + FormatDecimal(-n)
    else if n < 10 then ["0123456789"[n]]
    else FormatDecimal(n / 10) + ["0123456789"[n % 10]]
  }

  /**
   * `parseAttributes`: every `Key=Value` entry becomes an attribute, in
   * order; then the timestamp attribute (the Unix time `now`) unless
   * timestamps are disabled; then the name attribute when a name is
   * given. The first entry that does not split into exactly two parts
   * fails the whole parse.
   */
  method ParseAttributes(attributes: seq<string>, noTimestamp: bool, name: string, now: int)
    returns (r: Result<seq<Attribute>, string>)
    ensures r.Err? <==> exists i :: 0 <= i < |attributes| && Count(attributes[i], AttributeDelimiter) != 1
    ensures r.Err? ==> r.error == "invalid container attribute"
    ensures r.Ok? ==> |r.value| == |attributes| + (if noTimestamp then 0 else 1) + (if name != "" then 1 else 0)
    ensures r.Ok? ==> forall i :: 0 <= i < |attributes| ==>
      r.value[i].key + [AttributeDelimiter] + r.value[i].value == attributes[i]
      && AttributeDelimiter !in r.value[i].key && AttributeDelimiter !in r.value[i].value
    ensures r.Ok? && !noTimestamp ==> r.value[|attributes|] == Attribute(AttributeTimestamp, FormatDecimal(now))
    ensures r.Ok? && name != "" ==> r.value[|r.value| - 1] == Attribute(AttributeName, name)
  {
    var result: seq<Attribute> := [];
    for i := 0 to |attributes|
      invariant |result| == i
      invariant forall j :: 0 <= j < i ==> Count(attributes[j], AttributeDelimiter) == 1
      invariant forall j :: 0 <= j < i ==>
        result[j].key + [AttributeDelimiter] + result[j].value == attributes[j]
        && AttributeDelimiter !in result[j].key && AttributeDelimiter !in result[j].value
    {
      var kvPair := Split(attributes[i], AttributeDelimiter);
      SplitParts(attributes[i], AttributeDelimiter);
      if |kvPair| != 2 {
        return Err("invalid container attribute");
      }
      SplitPair(attributes[i]);
      result := result + [Attribute(kvPair[0], kvPair[1])];
    }
    if !noTimestamp {
      result := result + [Attribute(AttributeTimestamp, FormatDecimal(now))];
    }
    if name != "" {
      result := result + [Attribute(AttributeName, name)];
    }
    return Ok(result);
  }

  // ------------------------------------------------------------ container ID

  /**
   * The guard of `parseContainerID`: the empty string is refused before
   * any decoding; otherwise the identifier decoder (a parameter: it is
   * the container library's) decides.
   */
  function ParseContainerID<Id>(idStr: string, decode: string -> Option<Id>): (r: Result<Id, string>)
    ensures idStr == "" ==> r == Err("container ID is not set")
    ensures idStr != "" ==> (r.Ok? <==> decode(idStr).Some?)
    ensures idStr != "" && r.Ok? ==> r.value == decode(idStr).value
    ensures idStr != "" && r.Err? ==> r.error == "can't decode container ID value"
  {
    if idStr == "" then Err("container ID is not set")
    else
      match decode(idStr)
      case None => Err("can't decode container ID value")
      case Some(id) => Ok(id)
  }
}
