/**
 * The port-forward rule parser of NetworkServices/NetLib: a rule written as
 * `name:proto:[hostaddr]:hostport:[guestaddr]:guestport` becomes a PORTFORWARDRULE.
 *
 * The C helpers walk a cursor `pszRaw` through a private copy of the string,
 * together with a separately maintained length `cbRaw`; here the copy is the
 * sequence `s` (the characters before its terminating NUL), the cursor is an
 * index `p` into it and `cbRaw` is kept as its own integer, because the C code
 * lets the two drift apart.  A helper's result is the number of characters it
 * consumed, or -1, or VERR_INVALID_PARAMETER (-2) where it uses AssertReturn
 * with that status.  RTStrToUInt16 and RTNetStrToIPv4Addr are parameters.
 */
module PortForward {
  import opened Wrappers
  import opened CStrings

  const PF_NAMELEN: nat := 64
  const INET6_ADDRSTRLEN: nat := 46
  /** Size of the local `aszPort` buffer of the port parser. */
  const PORT_BUF_LEN: nat := 10
  const IPPROTO_TCP: int := 6
  const IPPROTO_UDP: int := 17
  /** The IPRT status VERR_INVALID_PARAMETER where a helper returns it as a count. */
  const ERR_INVALID_PARAMETER: int := -2

  datatype Rc = VINF_SUCCESS | VERR_INVALID_PARAMETER

  type U16 = x: nat | x < 0x1_0000
  type IPv4 = x: nat | x < 0x1_0000_0000

  /** RTStrToUInt16: the value of a decimal text, 0 when it is not one. */
  type PortConv = string -> U16
  /** RTNetStrToIPv4Addr: the address a dotted-quad text denotes, None on failure. */
  type AddrConv = string -> Option<IPv4>

  /** The contents of a PORTFORWARDRULE; the character arrays are held as their C strings. */
  datatype Rule = Rule(
    name: string,
    ipv6: int,
    proto: int,
    hostAddr: IPv4,
    hostAddrText: string,
    hostPort: U16,
    guestAddr: IPv4,
    guestAddrText: string,
    guestPort: U16)

  /** The rule after `memset(pPfr, 0, sizeof(PORTFORWARDRULE))`. */
  const ZeroRule := Rule("", 0, 0, 0, "", 0, 0, "", 0)

  function Min(a: int, b: int): int { if a < b then a else b }

  /** `pszRaw[i]` for a cursor at `i`: the character there, or the terminating NUL. */
  function At(s: seq<char>, i: int): char
  {
    if 0 <= i < |s| then s[i] else NUL
  }

  /** RTStrStr with a one-character needle: the first index at or after `from` holding `c`. */
  function Find(s: seq<char>, from: nat, c: char): (r: Option<nat>)
    requires from <= |s|
    ensures r.Some? ==> from <= r.value < |s| && s[r.value] == c
    ensures r.Some? ==> forall k :: from <= k < r.value ==> s[k] != c
    ensures r.None? ==> forall k :: from <= k < |s| ==> s[k] != c
    decreases |s| - from
  {
    if from == |s| then None
    else if s[from] == c then Some(from)
    else Find(s, from + 1, c)
  }

  /** No index of `s` in `[a, b)` holds `c` when the slice does not contain it. */
  lemma NotInSlice(s: seq<char>, a: nat, b: nat, c: char)
    requires a <= b <= |s| && c !in s[a..b]
    ensures forall k :: a <= k < b ==> s[k] != c
  {
    forall k | a <= k < b
      ensures s[k] != c
    {
      assert s[a..b][k - a] == s[k];
    }
  }

  /** The slice `[a, b)` of `s` does not contain `c` when no index in it holds `c`. */
  lemma FreeSlice(s: seq<char>, a: nat, b: nat, c: char)
    requires a <= b <= |s| && forall k :: a <= k < b ==> s[k] != c
    ensures c !in s[a..b]
  {
    forall k | 0 <= k < b - a
      ensures s[a..b][k] != c
    {
      assert s[a..b][k] == s[a + k];
    }
  }

  /** A character absent from `t` is absent from every prefix of it. */
  lemma NotInPrefix(t: seq<char>, n: nat, c: char)
    requires n <= |t| && c !in t
    ensures c !in t[..n]
  {
    forall k | 0 <= k < n
      ensures t[..n][k] != c
    {
      assert t[..n][k] == t[k];
    }
  }

  /** The first `c` at or after `from` is at `k`. */
  lemma FindIs(s: seq<char>, from: nat, k: nat, c: char)
    requires from <= k < |s| && s[k] == c && c !in s[from..k]
    ensures Find(s, from, c) == Some(k)
  {
    NotInSlice(s, from, k, c);
  }


  /**
   * RTStrCopy into a buffer of `size` bytes: the text itself when it fits,
   * otherwise its first `size - 1` characters.
   */
  function Truncate(t: string, size: nat): (r: string)
    requires size > 0
    ensures |r| < size && |r| <= |t| && r == t[..|r|]
    ensures |t| < size ==> r == t
    ensures |t| >= size ==> |r| == size - 1
  {
    t[..Min(|t|, size - 1)]
  }

  /** `[addr]` sits at `p` in `s`, with no `]` inside the brackets. */
  predicate BracketedAt(s: seq<char>, p: nat, addr: string)
  {
    p + 2 + |addr| <= |s| && s[p] == '[' && s[p + 1..p + 1 + |addr|] == addr
    && s[p + 1 + |addr|] == ']' && ']' !in addr
  }

  /** A bracketed field as netPfStrAddressParse reads it: its return value and the text it copied. */
  datatype Field = Field(ret: int, text: string)

  /**
   * netPfStrAddressParse with the cursor at `p` and `cbAddress` == INET6_ADDRSTRLEN.
   * A field `[addr]` that fits in `cbRaw` gives the length of the field and the
   * address cut to the buffer; empty brackets give -1 unless `emptyOk`; a field
   * that does not fit, or a `[` never closed, gives VERR_INVALID_PARAMETER; and
   * anything not starting with `[` gives -1.
   */
  method AddressParse(s: seq<char>, p: nat, cbRaw: int, emptyOk: bool) returns (r: Field)
    ensures r.ret == -1 || r.ret == ERR_INVALID_PARAMETER || (r.ret >= 2 && p + r.ret <= |s|)
    ensures |r.text| < INET6_ADDRSTRLEN && ']' !in r.text
    ensures At(s, p) != '[' ==> r == Field(-1, "")
    ensures At(s, p) == '[' && (forall k :: p < k < |s| ==> s[k] != ']') ==> r == Field(ERR_INVALID_PARAMETER, "")
    ensures forall addr {:trigger BracketedAt(s, p, addr)} :: BracketedAt(s, p, addr) && cbRaw < |addr| + 2 ==> r == Field(ERR_INVALID_PARAMETER, "")
    ensures forall addr {:trigger BracketedAt(s, p, addr)} :: BracketedAt(s, p, addr) && cbRaw >= |addr| + 2 && addr != "" ==>
      r == Field(|addr| + 2, Truncate(addr, INET6_ADDRSTRLEN))
    ensures BracketedAt(s, p, "") && cbRaw >= 2 ==> r == Field(if emptyOk then 2 else -1, "")
  {
    if At(s, p) != '[' {
      return Field(-1, "");
    }
    var cb := cbRaw - 1;
    if cb <= 0 {
      return Field(ERR_INVALID_PARAMETER, "");
    }
    var end := Find(s, p + 1, ']');
    forall addr | BracketedAt(s, p, addr)
      ensures end == Some(p + 1 + |addr|) && s[p + 1..end.value] == addr
    {
      FindIs(s, p + 1, p + 1 + |addr|, ']');
    }
    if end.None? {
      return Field(ERR_INVALID_PARAMETER, "");
    }
    var cbField := end.value - (p + 1);
    if cbField >= cb {
      return Field(ERR_INVALID_PARAMETER, "");
    }
    var text := s[p + 1..end.value];
    FreeSlice(s, p + 1, end.value, ']');
    NotInPrefix(text, |Truncate(text, INET6_ADDRSTRLEN)|, ']');
    if cbField != 0 {
      r := Field(cbField + 2, Truncate(text, INET6_ADDRSTRLEN));
    } else if !emptyOk {
      r := Field(-1, "");
    } else {
      r := Field(2, "");
    }
  }

  /** `:port` sits at `p` in `s`, with no `:` inside, followed by the end of the string or a `:`. */
  predicate PortAt(s: seq<char>, p: nat, port: string)
  {
    p + 1 + |port| <= |s| && s[p] == ':' && s[p + 1..p + 1 + |port|] == port && ':' !in port
    && (p + 1 + |port| == |s| || s[p + 1 + |port|] == ':')
  }

  /** A port field as netPfStrPortParse reads it: its return value and the port. */
  datatype PortField = PortField(ret: int, port: U16)

  /**
   * netPfStrPortParse with the cursor at `p`: a field `:port` gives one plus the
   * length of `port`, and the value RTStrToUInt16 reads from the first nine
   * characters of it (the size of the local buffer); a value of 0, a missing `:`
   * or nothing after the `:` gives -1.
   */
  method PortParse(s: seq<char>, p: nat, toU16: PortConv) returns (r: PortField)
    requires p <= |s|
    ensures || (r.ret == -1 && r.port == 0)
            || (r.ret >= 1 && p + r.ret <= |s| && r.port != 0 && (p + r.ret == |s| || s[p + r.ret] == ':'))
    ensures At(s, p) != ':' || p + 1 == |s| ==> r == PortField(-1, 0)
    ensures forall port {:trigger PortAt(s, p, port)} :: PortAt(s, p, port) && p + 1 < |s| && toU16(Truncate(port, PORT_BUF_LEN)) != 0 ==>
      r == PortField(1 + |port|, toU16(Truncate(port, PORT_BUF_LEN)))
    ensures forall port {:trigger PortAt(s, p, port)} :: PortAt(s, p, port) && p + 1 < |s| && toU16(Truncate(port, PORT_BUF_LEN)) == 0 ==>
      r == PortField(-1, 0)
  {
    if At(s, p) != ':' {
      return PortField(-1, 0);
    }
    var q := p + 1;
    var end := Find(s, q, ':');
    var cbPort: nat;
    if end.None? {
      if |s| - q <= 0 {
        return PortField(-1, 0);
      }
      cbPort := |s| - q;
    } else {
      cbPort := end.value - q;
    }
    var text := s[q..q + cbPort];
    forall port | PortAt(s, p, port)
      ensures text == port
    {
      NotInSlice(s, q, q + |port|, ':');
    }
    var value := toU16(Truncate(text, PORT_BUF_LEN));
    if value == 0 {
      return PortField(-1, 0);
    }
    r := PortField(1 + cbPort, value);
  }

  /** `:[addr]:port` sits at `p` in `s`, followed by the end of the string or a `:`. */
  predicate PairAt(s: seq<char>, p: nat, addr: string, port: string)
  {
    p < |s| && s[p] == ':' && BracketedAt(s, p + 1, addr) && PortAt(s, p + 3 + |addr|, port)
  }

  /** An address/port pair: the return value, the copied address and the port; or a read past the string. */
  datatype Pair = Pair(ret: int, addr: string, port: U16) | PairOverread

  /**
   * What a pair `:[addr]:port` that fits reads as: -1 for empty brackets where an
   * address is required, VERR_INVALID_PARAMETER (with the copied address) for a
   * port RTStrToUInt16 rejects, and otherwise its length, the address cut to its
   * buffer and the port.
   */
  function PairOf(addr: string, port: string, emptyOk: bool, toU16: PortConv): Pair
  {
    if addr == "" && !emptyOk then Pair(-1, "", 0)
    else if toU16(Truncate(port, PORT_BUF_LEN)) == 0 then Pair(ERR_INVALID_PARAMETER, Truncate(addr, INET6_ADDRSTRLEN), 0)
    else Pair(|addr| + |port| + 4, Truncate(addr, INET6_ADDRSTRLEN), toU16(Truncate(port, PORT_BUF_LEN)))
  }

  /**
   * netPfStrAddressPortPairParse with the cursor at the `:` before `[`.  A pair
   * `:[addr]:port` gives its length, the copied address and the port; empty
   * brackets where an address is required give -1, a port that does not convert
   * gives VERR_INVALID_PARAMETER, and so does a `cbRaw` too small for the
   * address.  The address parser's VERR_INVALID_PARAMETER is not caught (only
   * -1 is), so the cursor then steps back two characters, as `pszRaw += idxRaw`
   * does.  With nothing left but the terminating NUL and `cbRaw` still positive,
   * the parser reads the character after the NUL: PairOverread.
   */
  method PairParse(s: seq<char>, p: nat, cbRaw: int, emptyOk: bool, toU16: PortConv) returns (r: Pair)
    requires 1 <= p <= |s|
    ensures r.PairOverread? <==> p == |s| && cbRaw > 1
    ensures r.Pair? ==> |r.addr| < INET6_ADDRSTRLEN && ']' !in r.addr
    ensures r.Pair? && r.ret >= 0 ==>
      p + r.ret <= |s| && r.port != 0 && (p + r.ret == |s| || s[p + r.ret] == ':')
    ensures cbRaw <= 1 ==> r == Pair(ERR_INVALID_PARAMETER, "", 0)
    ensures p < |s| && cbRaw > 1 && At(s, p + 1) != '[' ==> r == Pair(-1, "", 0)
    ensures forall addr, port {:trigger PairAt(s, p, addr, port)} :: PairAt(s, p, addr, port) && port != "" && cbRaw >= |addr| + 4 ==>
      r == PairOf(addr, port, emptyOk, toU16)
  {
    var q := p + 1;
    var cb := cbRaw - 1;
    if cb <= 0 {
      return Pair(ERR_INVALID_PARAMETER, "", 0);
    }
    if q > |s| {
      return PairOverread;
    }
    if At(s, q) != '[' {
      return Pair(-1, "", 0);
    }
    var a := AddressParse(s, q, cb, emptyOk);
    if a.ret == -1 {
      return Pair(-1, "", 0);
    }
    var q2 := q + a.ret;
    var cb2 := cb - a.ret;
    forall addr, port | PairAt(s, p, addr, port) && cbRaw >= |addr| + 4
      ensures a == Field(|addr| + 2, Truncate(addr, INET6_ADDRSTRLEN)) && q2 == p + 3 + |addr|
      ensures cb2 > 0 && At(s, q2) == ':' && PortAt(s, q2, port)
    {
      assert BracketedAt(s, q, addr);
    }
    if cb2 <= 0 {
      return Pair(ERR_INVALID_PARAMETER, a.text, 0);
    }
    if At(s, q2) != ':' {
      return Pair(-1, a.text, 0);
    }
    var port := PortParse(s, q2, toU16);
    if port.ret == -1 {
      return Pair(ERR_INVALID_PARAMETER, a.text, 0);
    }
    r := Pair(a.ret + port.ret + 1, a.text, port.port);
    assert p + r.ret == q2 + port.ret;
    forall addr, port' | PairAt(s, p, addr, port') && port' != "" && cbRaw >= |addr| + 4
      ensures r == PairOf(addr, port', emptyOk, toU16)
    {
    }
  }

  /** ASCII case folding, as RTStrNICmp applies it to the letters of "tcp" and "udp". */
  function Lower(c: char): char
  {
    if 'A' <= c <= 'Z' then (c as int + 32) as char else c
  }

  /** `RTStrNICmp(pszRaw, word, 3) == 0` with the cursor at `p`. */
  predicate ProtoIs(s: seq<char>, p: nat, word: string)
    requires |word| == 3
  {
    p + 3 <= |s| && Lower(s[p]) == word[0] && Lower(s[p + 1]) == word[1] && Lower(s[p + 2]) == word[2]
  }

  /**
   * The name field (lines 251-271): empty for a leading `:`, otherwise the text
   * before the first `:` after the first character, shorter than PF_NAMELEN;
   * the second component is the index of that `:`.
   */
  function NameField(s: seq<char>): (r: Option<(string, nat)>)
    requires |s| > 0
    ensures r.Some? ==>
      r.value.1 < |s| && s[r.value.1] == ':' && r.value.0 == s[..r.value.1]
      && |r.value.0| < PF_NAMELEN && ':' !in r.value.0
    ensures r.None? ==> s[0] != ':'
  {
    if s[0] == ':' then Some(("", 0))
    else match Find(s, 1, ':')
      case None => None
      case Some(e) =>
        if e >= PF_NAMELEN then None
        else
          assert s[..e] == [s[0]] + s[1..e];
          Some((s[..e], e))
  }

  /** The text of an address/port pair, `:[addr]:port`. */
  function PairText(addr: string, port: string): string
  {
    ":[" + addr + "]:" + port
  }

  /** The parts of a rule text `name:proto:[hostaddr]:hostport:[guestaddr]:guestport`. */
  datatype Parts = Parts(name: string, word: string, hostAddr: string, hostPort: string,
                         guestAddr: string, guestPort: string)

  /** The rule text made of `d`. */
  function RuleText(d: Parts): string
  {
    d.name + ":" + d.word + PairText(d.hostAddr, d.hostPort) + PairText(d.guestAddr, d.guestPort)
  }

  /**
   * Parts that a rule text can be read back into: a name without `:` that fits
   * its buffer, a protocol word, addresses without `]` that fit theirs (the host
   * one may be empty), ports without `:` that fit the port buffer and convert to
   * a non-zero value, and, for IPv4, addresses RTNetStrToIPv4Addr accepts.
   */
  predicate PartsOk(d: Parts, fIPv6: int, toIPv4: AddrConv, toU16: PortConv)
  {
    && ':' !in d.name && |d.name| < PF_NAMELEN && (d.word == "tcp" || d.word == "udp")
    && ']' !in d.hostAddr && |d.hostAddr| < INET6_ADDRSTRLEN
    && ']' !in d.guestAddr && 1 <= |d.guestAddr| < INET6_ADDRSTRLEN
    && ':' !in d.hostPort && 1 <= |d.hostPort| < PORT_BUF_LEN && toU16(d.hostPort) != 0
    && ':' !in d.guestPort && 1 <= |d.guestPort| < PORT_BUF_LEN && toU16(d.guestPort) != 0
    && (fIPv6 == 0 ==> (d.hostAddr == "" || toIPv4(d.hostAddr).Some?) && toIPv4(d.guestAddr).Some?)
  }

  /** `s` is the text of well-formed parts `d`. */
  predicate IsRuleText(s: seq<char>, d: Parts, fIPv6: int, toIPv4: AddrConv, toU16: PortConv)
  {
    PartsOk(d, fIPv6, toIPv4, toU16) && s == RuleText(d)
  }

  /** The address RTNetStrToIPv4Addr leaves in the rule: none for an empty text or in IPv6 mode. */
  function AddrValue(text: string, fIPv6: int, toIPv4: AddrConv): IPv4
  {
    if text != "" && fIPv6 == 0 && toIPv4(text).Some? then toIPv4(text).value else 0
  }

  /** The rule that the text of `d` stands for. */
  function RuleOf(d: Parts, fIPv6: int, toIPv4: AddrConv, toU16: PortConv): Rule
  {
    Rule(d.name, fIPv6, if d.word == "tcp" then IPPROTO_TCP else IPPROTO_UDP,
         AddrValue(d.hostAddr, fIPv6, toIPv4), d.hostAddr, toU16(d.hostPort),
         AddrValue(d.guestAddr, fIPv6, toIPv4), d.guestAddr, toU16(d.guestPort))
  }

  /** The characters of `t` sit at `p` in `s`. */
  lemma SliceAt(s: seq<char>, p: nat, t: seq<char>, a: nat, b: nat)
    requires p + |t| <= |s| && s[p..p + |t|] == t && a <= b <= |t|
    ensures s[p + a..p + b] == t[a..b]
  {
    forall i | 0 <= i < b - a
      ensures s[p + a..p + b][i] == t[a..b][i]
    {
      CharAt(s, p, t, a + i);
    }
  }

  /** The character of `t` at `i` sits at `p + i` in `s`. */
  lemma CharAt(s: seq<char>, p: nat, t: seq<char>, i: nat)
    requires p + |t| <= |s| && s[p..p + |t|] == t && i < |t|
    ensures s[p + i] == t[i]
  {
    assert s[p..p + |t|][i] == s[p + i];
  }

  /** The layout of `:[addr]:port`. */
  lemma PairTextParts(addr: string, port: string)
    ensures var t := PairText(addr, port);
      |t| == 4 + |addr| + |port| && t[0] == ':' && t[1] == '[' && t[2..2 + |addr|] == addr
      && t[2 + |addr|] == ']' && t[3 + |addr|] == ':' && t[4 + |addr|..] == port
  {
  }

  /**
   * The text `:[addr]:port` at `p` in `s`, followed by the end of the string or a
   * `:`, is a pair the pair parser can read back.
   */
  lemma PairTextAt(s: seq<char>, p: nat, addr: string, port: string)
    requires p + |PairText(addr, port)| <= |s| && s[p..p + |PairText(addr, port)|] == PairText(addr, port)
    requires p + |PairText(addr, port)| == |s| || s[p + |PairText(addr, port)|] == ':'
    requires ']' !in addr && ':' !in port
    ensures |PairText(addr, port)| == 4 + |addr| + |port|
    ensures PairAt(s, p, addr, port)
  {
    var t := PairText(addr, port);
    PairTextParts(addr, port);
    SliceAt(s, p, t, 2, 2 + |addr|);
    SliceAt(s, p, t, 4 + |addr|, |t|);
    CharAt(s, p, t, 0);
    CharAt(s, p, t, 1);
    CharAt(s, p, t, 2 + |addr|);
    CharAt(s, p, t, 3 + |addr|);
  }

  /** Where the two pair texts sit when they make up the rest of `s` from `p`. */
  lemma TailLayout(s: seq<char>, p: nat, h: string, g: string)
    requires p <= |s| && s[p..] == h + g && g != [] && g[0] == ':'
    ensures p + |h| + |g| == |s|
    ensures s[p..p + |h|] == h && s[p + |h|] == ':' && s[p + |h|..p + |h| + |g|] == g
  {
    assert s[p..p + |h|] == s[p..][..|h|];
    assert s[p..][|h|] == g[0];
    assert s[p + |h|..p + |h| + |g|] == s[p..][|h|..];
  }

  /** The name and protocol of a rule text are where the parser looks for them. */
  lemma HeadText(s: seq<char>, name: string, word: string, rest: string)
    requires s == name + ":" + word + rest
    requires ':' !in name && |name| < PF_NAMELEN && (word == "tcp" || word == "udp")
    requires rest != [] && rest[0] == ':'
    ensures NameField(s) == Some((name, |name|))
    ensures ProtoIs(s, |name| + 1, "tcp") <==> word == "tcp"
    ensures ProtoIs(s, |name| + 1, "udp") <==> word == "udp"
    ensures At(s, |name| + 4) == ':' && s[|name| + 4..] == rest
  {
    assert s[..|name|] == name;
    assert s[|name|] == ':';
    if name != [] {
      assert s[1..|name|] == name[1..];
      FindIs(s, 1, |name|, ':');
    }
    assert s[|name| + 1..|name| + 4] == word;
    assert s[|name| + 1] == word[0] && s[|name| + 2] == word[1] && s[|name| + 3] == word[2];
    assert s[|name| + 4..] == rest;
  }

  /** Where the parser finds the two pairs when they make up the rest of `s` from `p`. */
  lemma PairsLayout(s: seq<char>, p: nat, q: nat, d: Parts)
    requires p <= |s| && s[p..] == PairText(d.hostAddr, d.hostPort) + PairText(d.guestAddr, d.guestPort)
    requires ']' !in d.hostAddr && ':' !in d.hostPort && ']' !in d.guestAddr && ':' !in d.guestPort
    requires q == p + 4 + |d.hostAddr| + |d.hostPort|
    ensures PairAt(s, p, d.hostAddr, d.hostPort)
    ensures PairAt(s, q, d.guestAddr, d.guestPort)
    ensures |s| == q + 4 + |d.guestAddr| + |d.guestPort|
  {
    var h := PairText(d.hostAddr, d.hostPort);
    var g := PairText(d.guestAddr, d.guestPort);
    TailLayout(s, p, h, g);
    PairTextAt(s, p, d.hostAddr, d.hostPort);
    PairTextAt(s, q, d.guestAddr, d.guestPort);
  }

  /**
   * `s` holds a name, a protocol word and a host pair `:[addr]:port` that parses,
   * and nothing after it: the guest pair is missing.
   */
  predicate IsHostOnlyText(s: seq<char>, name: string, word: string, addr: string, port: string)
  {
    && ':' !in name && |name| < PF_NAMELEN && (word == "tcp" || word == "udp")
    && ']' !in addr && ':' !in port && port != ""
    && s == name + ":" + word + PairText(addr, port)
  }

  /** Where the parser finds the fields of a rule text that stops after the host pair. */
  lemma HostOnlyLayout(s: seq<char>, name: string, word: string, addr: string, port: string)
    requires IsHostOnlyText(s, name, word, addr, port)
    ensures NameField(s) == Some((name, |name|))
    ensures ProtoIs(s, |name| + 1, "tcp") <==> word == "tcp"
    ensures ProtoIs(s, |name| + 1, "udp") <==> word == "udp"
    ensures At(s, |name| + 4) == ':'
    ensures PairAt(s, |name| + 4, addr, port)
    ensures |s| == |name| + 8 + |addr| + |port|
  {
    var h := PairText(addr, port);
    HeadText(s, name, word, h);
    PairTextAt(s, |name| + 4, addr, port);
  }

  /**
   * `s` holds a name and a protocol word, and what follows the `:` after the
   * word is not `[`: the host pair is malformed.
   */
  predicate IsHostMissingText(s: seq<char>, name: string, word: string, rest: string)
  {
    && ':' !in name && |name| < PF_NAMELEN && (word == "tcp" || word == "udp")
    && (rest == [] || rest[0] != '[')
    && s == name + ":" + word + ":" + rest
  }

  /** Where the parser finds the fields of a rule text whose host pair does not open with `[`. */
  lemma HostMissingLayout(s: seq<char>, name: string, word: string, rest: string)
    requires IsHostMissingText(s, name, word, rest)
    ensures NameField(s) == Some((name, |name|))
    ensures ProtoIs(s, |name| + 1, "tcp") <==> word == "tcp"
    ensures ProtoIs(s, |name| + 1, "udp") <==> word == "udp"
    ensures At(s, |name| + 4) == ':' && At(s, |name| + 5) != '['
  {
    assert s == name + ":" + word + ([':'] + rest);
    HeadText(s, name, word, [':'] + rest);
    if rest != [] {
      assert s[|name| + 5] == rest[0];
    }
  }

  /**
   * The head of a rule text as lines 242-293 accept it: longer than 14
   * characters, a name without `:` that fits PF_NAMELEN and ends at the first
   * `:`, a protocol word `tcp` or `udp` in any case, and a `:` after the word.
   */
  predicate HeadOk(s: seq<char>, name: string)
  {
    && |s| > 14 && |name| < PF_NAMELEN && ':' !in name && |name| + 4 < |s|
    && s[..|name| + 1] == name + ":"
    && (ProtoIs(s, |name| + 1, "tcp") || ProtoIs(s, |name| + 1, "udp"))
    && s[|name| + 4] == ':'
  }

  /** A name followed by `:` at the start of `s` is the name field the parser reads. */
  lemma HeadName(s: seq<char>, n: string)
    requires |n| < |s| && s[..|n| + 1] == n + ":" && ':' !in n && |n| < PF_NAMELEN
    ensures NameField(s) == Some((n, |n|))
  {
    assert s[..|n|] == n by {
      assert s[..|n|] == s[..|n| + 1][..|n|];
    }
    assert s[|n|] == ':' by {
      assert s[..|n| + 1][|n|] == s[|n|];
    }
    if n != [] {
      assert s[0] == n[0];
      assert s[1..|n|] == n[1..];
      FindIs(s, 1, |n|, ':');
    }
  }

  /**
   * Lines 242-293: the length check, the name and the protocol word, each
   * failing with VERR_INVALID_PARAMETER (None here).  The name is the text the
   * rule keeps; the protocol word and the pairs start at `|name| + 1` and
   * `|name| + 4`.
   */
  method ParseHead(s: seq<char>) returns (name: Option<string>)
    ensures name.Some? ==> HeadOk(s, name.value)
    ensures forall n :: HeadOk(s, n) ==> name == Some(n)
  {
    if |s| <= 14 {
      return None;
    }
    var field := NameField(s);
    if field.None? {
      forall n | HeadOk(s, n)
        ensures NameField(s) == Some((n, |n|))
      {
        HeadName(s, n);
      }
      return None;
    }
    var n := field.value.0;
    assert s[..|n| + 1] == n + ":";
    forall n' | HeadOk(s, n')
      ensures n' == n
    {
      HeadName(s, n');
    }
    if !((ProtoIs(s, |n| + 1, "tcp") || ProtoIs(s, |n| + 1, "udp")) && At(s, |n| + 4) == ':') {
      return None;
    }
    name := Some(n);
  }


  /**
   * The protocol lines 283-289 are meant to select: IPPROTO_TCP for the word
   * `tcp`, IPPROTO_UDP otherwise (the head having been checked to hold `tcp` or
   * `udp`).
   */
  function Protocol(s: seq<char>, p: nat): (r: int)
    ensures r == IPPROTO_TCP || r == IPPROTO_UDP
    ensures r == IPPROTO_TCP <==> ProtoIs(s, p, "tcp")
  {
    if ProtoIs(s, p, "tcp") then IPPROTO_TCP else IPPROTO_UDP
  }

  /**
   * The protocol lines 283-289 select as written: `fTcpProto` is assigned the
   * whole `||`, so it is set for `udp` as well as for `tcp`, and IPPROTO_UDP is
   * never selected once the head has been checked.
   */
  function ProtocolAsWritten(s: seq<char>, p: nat): (r: int)
    ensures ProtoIs(s, p, "udp") ==> r == IPPROTO_TCP && r != Protocol(s, p)
  {
    if ProtoIs(s, p, "tcp") || ProtoIs(s, p, "udp") then IPPROTO_TCP else IPPROTO_UDP
  }

  /** A rule as the parser finds it at the start of `s`: a well-formed head, then two well-formed pairs. */
  predicate RuleAt(s: seq<char>, name: string, ha: string, hp: string, ga: string, gp: string,
                   fIPv6: int, toIPv4: AddrConv, toU16: PortConv)
  {
    HeadOk(s, name) && PairsAt(s, |name| + 4, ha, hp, ga, gp, fIPv6, toIPv4, toU16)
  }

  /** The rule lines 318-351 fill in from the fields of a rule found by RuleAt. */
  function RuleFrom(s: seq<char>, name: string, ha: string, hp: string, ga: string, gp: string,
                    fIPv6: int, toIPv4: AddrConv, toU16: PortConv): Rule
  {
    Rule(name, fIPv6, Protocol(s, |name| + 1), AddrValue(ha, fIPv6, toIPv4), ha, toU16(hp),
         AddrValue(ga, fIPv6, toIPv4), ga, toU16(gp))
  }

  /** A well-formed head followed by a single pair and nothing after it. */
  predicate HostOnlyAt(s: seq<char>, name: string, ha: string, hp: string)
  {
    HeadOk(s, name) && LastPairAt(s, |name| + 4, ha, hp)
  }

  /** A well-formed head followed by a host pair that does not open with `[`. */
  predicate HostMissingAt(s: seq<char>, name: string)
  {
    HeadOk(s, name) && At(s, |name| + 5) != '['
  }

  /** The head of a rule text made of well-formed parts is its name and protocol word. */
  lemma RuleTextHead(s: seq<char>, d: Parts, fIPv6: int, toIPv4: AddrConv, toU16: PortConv)
    requires IsRuleText(s, d, fIPv6, toIPv4, toU16)
    ensures HeadOk(s, d.name)
    ensures Protocol(s, |d.name| + 1) == RuleOf(d, fIPv6, toIPv4, toU16).proto
    ensures s[|d.name| + 4..] == PairText(d.hostAddr, d.hostPort) + PairText(d.guestAddr, d.guestPort)
  {
    var rest := PairText(d.hostAddr, d.hostPort) + PairText(d.guestAddr, d.guestPort);
    assert s == d.name + ":" + d.word + rest;
    HeadText(s, d.name, d.word, rest);
    assert s[..|d.name| + 1] == d.name + ":";
  }

  /**
   * A rule text made of well-formed parts is a rule as the parser finds it,
   * and the rule filled in from its fields is the one the parts stand for.
   */
  lemma RuleTextRead(s: seq<char>, d: Parts, fIPv6: int, toIPv4: AddrConv, toU16: PortConv)
    requires IsRuleText(s, d, fIPv6, toIPv4, toU16)
    ensures RuleAt(s, d.name, d.hostAddr, d.hostPort, d.guestAddr, d.guestPort, fIPv6, toIPv4, toU16)
    ensures RuleFrom(s, d.name, d.hostAddr, d.hostPort, d.guestAddr, d.guestPort, fIPv6, toIPv4, toU16)
      == RuleOf(d, fIPv6, toIPv4, toU16)
  {
    RuleTextHead(s, d, fIPv6, toIPv4, toU16);
    PairsLayout(s, |d.name| + 4, |d.name| + 8 + |d.hostAddr| + |d.hostPort|, d);
  }

  /** A text that stops after its host pair, once past the length check, is found as such. */
  lemma HostOnlyRead(s: seq<char>, name: string, word: string, addr: string, port: string)
    requires IsHostOnlyText(s, name, word, addr, port) && |s| > 14
    ensures HostOnlyAt(s, name, addr, port)
  {
    HostOnlyLayout(s, name, word, addr, port);
    assert s[..|name| + 1] == name + ":";
  }

  /** A text whose host pair does not open with `[`, once past the length check, is found as such. */
  lemma HostMissingRead(s: seq<char>, name: string, word: string, rest: string)
    requires IsHostMissingText(s, name, word, rest) && |s| > 14
    ensures HostMissingAt(s, name)
  {
    HostMissingLayout(s, name, word, rest);
    assert s[..|name| + 1] == name + ":";
  }

  /**
   * What the address conversions of lines 322-349 accept: a guest address is
   * required, and for IPv4 both texts (the host one only when present) must be
   * addresses RTNetStrToIPv4Addr reads.
   */
  predicate AddressesOk(hostText: string, guestText: string, fIPv6: int, toIPv4: AddrConv)
  {
    guestText != "" && (fIPv6 == 0 ==> (hostText == "" || toIPv4(hostText).Some?) && toIPv4(guestText).Some?)
  }

  /**
   * What lines 295-351 leave in a rule they fill: the mode, both ports
   * non-zero, a guest address present, both address texts fitting their
   * buffers, and the addresses the conversions of those texts (zero in IPv6
   * mode, where none is made).
   */
  predicate Filled(r: Rule, fIPv6: int, toIPv4: AddrConv)
  {
    && r.ipv6 == fIPv6 && r.hostPort != 0 && r.guestPort != 0
    && |r.hostAddrText| < INET6_ADDRSTRLEN && |r.guestAddrText| < INET6_ADDRSTRLEN
    && AddressesOk(r.hostAddrText, r.guestAddrText, fIPv6, toIPv4)
    && r.hostAddr == AddrValue(r.hostAddrText, fIPv6, toIPv4)
    && r.guestAddr == AddrValue(r.guestAddrText, fIPv6, toIPv4)
  }

  /**
   * What a successful netPfStrToPf promises about the rule it leaves for `s`: the
   * head of `s` is well formed and the name is the text before its first `:`,
   * the protocol is the one the word after it names, and the rest is filled in
   * from the two pairs.
   */
  predicate Accepted(s: seq<char>, r: Rule, fIPv6: int, toIPv4: AddrConv)
  {
    HeadOk(s, r.name) && r.proto == Protocol(s, |r.name| + 1) && Filled(r, fIPv6, toIPv4)
  }

  /**
   * Two well-formed pairs `:[ha]:hp:[ga]:gp` at `p`, back to back up to the end
   * of `s`: texts that fit their buffers, ports that convert to non-zero
   * values, and addresses the conversions accept.
   */
  predicate PairsAt(s: seq<char>, p: nat, ha: string, hp: string, ga: string, gp: string,
                    fIPv6: int, toIPv4: AddrConv, toU16: PortConv)
  {
    && PairAt(s, p, ha, hp) && PairAt(s, p + 4 + |ha| + |hp|, ga, gp)
    && |s| == p + 8 + |ha| + |hp| + |ga| + |gp|
    && |ha| < INET6_ADDRSTRLEN && |ga| < INET6_ADDRSTRLEN
    && 1 <= |hp| < PORT_BUF_LEN && 1 <= |gp| < PORT_BUF_LEN
    && toU16(hp) != 0 && toU16(gp) != 0
    && AddressesOk(ha, ga, fIPv6, toIPv4)
  }

  /** A pair `:[ha]:hp` at `p` with a non-empty port, and nothing after it. */
  predicate LastPairAt(s: seq<char>, p: nat, ha: string, hp: string)
  {
    PairAt(s, p, ha, hp) && hp != "" && |s| == p + 4 + |ha| + |hp|
  }

  /** A PORTFORWARDRULE filled in place by the parser. */
  class PortForwardRule {
    var name: string
    var ipv6: int
    var proto: int
    var hostAddr: IPv4
    var hostAddrText: string
    var hostPort: U16
    var guestAddr: IPv4
    var guestAddrText: string
    var guestPort: U16

    /** The contents of the rule. */
    function Value(): Rule
      reads this
    {
      Rule(name, ipv6, proto, hostAddr, hostAddrText, hostPort, guestAddr, guestAddrText, guestPort)
    }

    /** `memset(pPfr, 0, sizeof(PORTFORWARDRULE))`. */
    method Clear()
      modifies this
      ensures Value() == ZeroRule
    {
      name, ipv6, proto := "", 0, 0;
      hostAddr, hostAddrText, hostPort := 0, "", 0;
      guestAddr, guestAddrText, guestPort := 0, "", 0;
    }

    /**
     * Lines 318-351, once both pairs have been copied into the address texts:
     * store the mode and protocol, convert the host address if there is one
     * (IPv4 only), store the host port, require and convert the guest address,
     * store the guest port; a failure clears the rule.
     */
    method Fill(protocol: int, fIPv6: int, toIPv4: AddrConv, hostPortValue: U16, guestPortValue: U16)
      returns (rc: Rc)
      requires hostAddr == 0 && guestAddr == 0
      modifies this
      ensures rc == VINF_SUCCESS <==> AddressesOk(old(hostAddrText), old(guestAddrText), fIPv6, toIPv4)
      ensures rc == VINF_SUCCESS ==>
        Value() == Rule(old(name), fIPv6, protocol,
                        AddrValue(old(hostAddrText), fIPv6, toIPv4), old(hostAddrText), hostPortValue,
                        AddrValue(old(guestAddrText), fIPv6, toIPv4), old(guestAddrText), guestPortValue)
      ensures rc == VERR_INVALID_PARAMETER ==> Value() == ZeroRule
    {
      ipv6, proto := fIPv6, protocol;
      if hostAddrText != "" && fIPv6 == 0 {
        var a := toIPv4(hostAddrText);
        if a.None? {
          Clear();
          return VERR_INVALID_PARAMETER;
        }
        hostAddr := a.value;
      }
      hostPort := hostPortValue;
      if guestAddrText == "" {
        Clear();
        return VERR_INVALID_PARAMETER;
      }
      if fIPv6 == 0 {
        var a := toIPv4(guestAddrText);
        if a.None? {
          Clear();
          return VERR_INVALID_PARAMETER;
        }
        guestAddr := a.value;
      }
      guestPort := guestPortValue;
      rc := VINF_SUCCESS;
    }

    /**
     * Lines 295-351 with the cursor at `p`, after the head: the host pair (an
     * empty address allowed) with `cbRaw` the number of characters left, the
     * guest pair after it, and the fill; a failure clears the rule.  Two
     * well-formed pairs up to the end of the string are read into the rule; a
     * host pair with nothing after it is rejected.
     */
    method ReadPairs(s: seq<char>, p: nat, protocol: int, fIPv6: int, toIPv4: AddrConv, toU16: PortConv)
      returns (rc: Rc)
      requires 1 <= p <= |s| && hostAddr == 0 && guestAddr == 0
      modifies this
      ensures rc == VERR_INVALID_PARAMETER ==> Value() == ZeroRule
      ensures rc == VINF_SUCCESS ==> Filled(Value(), fIPv6, toIPv4) && name == old(name) && proto == protocol
      ensures forall ha, hp, ga, gp {:trigger PairsAt(s, p, ha, hp, ga, gp, fIPv6, toIPv4, toU16)} ::
        PairsAt(s, p, ha, hp, ga, gp, fIPv6, toIPv4, toU16) ==>
          rc == VINF_SUCCESS &&
          Value() == Rule(old(name), fIPv6, protocol, AddrValue(ha, fIPv6, toIPv4), ha, toU16(hp),
                          AddrValue(ga, fIPv6, toIPv4), ga, toU16(gp))
      ensures forall ha, hp {:trigger LastPairAt(s, p, ha, hp)} ::
        LastPairAt(s, p, ha, hp) ==> rc == VERR_INVALID_PARAMETER
      ensures At(s, p + 1) != '[' ==> rc == VERR_INVALID_PARAMETER
    {
      var host := PairParse(s, p, |s| - p, true, toU16);
      hostAddrText := host.addr;
      forall ha, hp, ga, gp | PairsAt(s, p, ha, hp, ga, gp, fIPv6, toIPv4, toU16)
        ensures host == Pair(|ha| + |hp| + 4, ha, toU16(hp))
      {
      }
      if host.ret < 0 {
        Clear();
        return VERR_INVALID_PARAMETER;
      }
      var q := p + host.ret;
      var guest := PairParse(s, q, |s| - q, false, toU16);
      guestAddrText := guest.addr;
      forall ha, hp, ga, gp | PairsAt(s, p, ha, hp, ga, gp, fIPv6, toIPv4, toU16)
        ensures guest == Pair(|ga| + |gp| + 4, ga, toU16(gp))
      {
        assert q == p + 4 + |ha| + |hp|;
      }
      if guest.ret < 0 {
        Clear();
        return VERR_INVALID_PARAMETER;
      }
      rc := Fill(protocol, fIPv6, toIPv4, host.port, guest.port);
    }

    /**
     * netPfStrToPf into this rule, with `cbRaw` kept equal to the number of
     * characters left, `tcp` alone selecting IPPROTO_TCP, and every failure
     * leaving through the exit that clears the rule.  A rule found at the start
     * of `s` is read into the rule exactly; a text too short, or whose host pair
     * does not open with `[` or is the last thing in it, is rejected.
     */
    method FromString(s: seq<char>, fIPv6: int, toIPv4: AddrConv, toU16: PortConv) returns (rc: Rc)
      modifies this
      ensures rc == VERR_INVALID_PARAMETER ==> Value() == ZeroRule
      ensures rc == VINF_SUCCESS ==> Accepted(s, Value(), fIPv6, toIPv4)
      ensures |s| <= 14 ==> rc == VERR_INVALID_PARAMETER
      ensures forall n, ha, hp, ga, gp {:trigger RuleAt(s, n, ha, hp, ga, gp, fIPv6, toIPv4, toU16)} ::
        RuleAt(s, n, ha, hp, ga, gp, fIPv6, toIPv4, toU16) ==>
          rc == VINF_SUCCESS && Value() == RuleFrom(s, n, ha, hp, ga, gp, fIPv6, toIPv4, toU16)
      ensures forall n, ha, hp {:trigger HostOnlyAt(s, n, ha, hp)} ::
        HostOnlyAt(s, n, ha, hp) ==> rc == VERR_INVALID_PARAMETER
      ensures forall n {:trigger HostMissingAt(s, n)} :: HostMissingAt(s, n) ==> rc == VERR_INVALID_PARAMETER
    {
      Clear();
      var head := ParseHead(s);
      if head.None? {
        return VERR_INVALID_PARAMETER;
      }
      name := head.value;
      var protocol := Protocol(s, |name| + 1);
      rc := ReadPairs(s, |name| + 4, protocol, fIPv6, toIPv4, toU16);
    }

    /**
     * Lines 295-351 as written, with the cursor at `p` and `cbRaw` whatever the
     * caller kept: a failure of the host pair returns without clearing the rule,
     * and a `cbRaw` larger than what is left lets the guest pair read past the
     * end of the string (`overread`).
     */
    method ReadPairsAsWritten(s: seq<char>, p: nat, cbRaw: int, protocol: int, fIPv6: int,
                              toIPv4: AddrConv, toU16: PortConv)
      returns (rc: Rc, overread: bool)
      requires 1 <= p <= |s| && cbRaw >= |s| - p && hostAddr == 0 && guestAddr == 0 && hostAddrText == ""
      modifies this
      ensures overread ==> rc == VERR_INVALID_PARAMETER
      ensures rc == VERR_INVALID_PARAMETER && !overread ==>
        Value() == ZeroRule || Value() == old(Value()).(hostAddrText := hostAddrText)
      ensures rc == VINF_SUCCESS ==> Filled(Value(), fIPv6, toIPv4) && name == old(name) && proto == protocol
      ensures forall ha, hp, ga, gp {:trigger PairsAt(s, p, ha, hp, ga, gp, fIPv6, toIPv4, toU16)} ::
        PairsAt(s, p, ha, hp, ga, gp, fIPv6, toIPv4, toU16) ==>
          !overread && rc == VINF_SUCCESS &&
          Value() == Rule(old(name), fIPv6, protocol, AddrValue(ha, fIPv6, toIPv4), ha, toU16(hp),
                          AddrValue(ga, fIPv6, toIPv4), ga, toU16(gp))
      ensures p < |s| && cbRaw > 1 && At(s, p + 1) != '[' ==>
        !overread && rc == VERR_INVALID_PARAMETER && Value() == old(Value())
      ensures forall ha, hp {:trigger LastPairAt(s, p, ha, hp)} ::
        LastPairAt(s, p, ha, hp) && toU16(Truncate(hp, PORT_BUF_LEN)) != 0 && cbRaw - (|s| - p) > 1 ==> overread
    {
      var host := PairParse(s, p, cbRaw, true, toU16);
      forall ha, hp | LastPairAt(s, p, ha, hp)
        && toU16(Truncate(hp, PORT_BUF_LEN)) != 0 && cbRaw - (|s| - p) > 1
        ensures host.Pair? && host.ret == |s| - p
      {
        assert host == PairOf(ha, hp, true, toU16);
      }
      forall ha, hp, ga, gp | PairsAt(s, p, ha, hp, ga, gp, fIPv6, toIPv4, toU16)
        ensures host == Pair(|ha| + |hp| + 4, ha, toU16(hp))
      {
      }
      if host.PairOverread? {
        return VERR_INVALID_PARAMETER, true;
      }
      hostAddrText := host.addr;
      if host.ret < 0 {
        return VERR_INVALID_PARAMETER, false;
      }
      var q, cb := p + host.ret, cbRaw - host.ret;
      var guest := PairParse(s, q, cb, false, toU16);
      forall ha, hp | LastPairAt(s, p, ha, hp)
        && toU16(Truncate(hp, PORT_BUF_LEN)) != 0 && cbRaw - (|s| - p) > 1
        ensures guest.PairOverread?
      {
      }
      if guest.PairOverread? {
        Clear();
        return VERR_INVALID_PARAMETER, true;
      }
      guestAddrText := guest.addr;
      forall ha, hp, ga, gp | PairsAt(s, p, ha, hp, ga, gp, fIPv6, toIPv4, toU16)
        ensures guest == Pair(|ga| + |gp| + 4, ga, toU16(gp))
      {
        assert q == p + 4 + |ha| + |hp|;
      }
      if guest.ret < 0 {
        Clear();
        return VERR_INVALID_PARAMETER, false;
      }
      rc := Fill(protocol, fIPv6, toIPv4, host.port, guest.port);
      overread := false;
    }

    /**
     * netPfStrToPf as written: `cbRaw` loses only the separator after the name
     * (line 279) and so exceeds what is left by the name's length, `fTcpProto`
     * takes the value of the whole `||` (lines 283-284), and a failing host pair
     * returns without the memset (lines 297-298).  So a rule with the word `udp`
     * reads back with IPPROTO_TCP, a host pair that does not open with `[`
     * leaves the name in the rule, and a text that stops after its host pair,
     * under a name of two characters or more, sends the guest pair parser past
     * the end of the string.
     */
    method FromStringAsWritten(s: seq<char>, fIPv6: int, toIPv4: AddrConv, toU16: PortConv)
      returns (rc: Rc, overread: bool)
      modifies this
      ensures overread ==> rc == VERR_INVALID_PARAMETER
      ensures forall n, ha, hp, ga, gp {:trigger RuleAt(s, n, ha, hp, ga, gp, fIPv6, toIPv4, toU16)} ::
        RuleAt(s, n, ha, hp, ga, gp, fIPv6, toIPv4, toU16) ==>
          !overread && rc == VINF_SUCCESS &&
          Value() == RuleFrom(s, n, ha, hp, ga, gp, fIPv6, toIPv4, toU16).(proto := IPPROTO_TCP)
      ensures forall n {:trigger HostMissingAt(s, n)} ::
        HostMissingAt(s, n) ==> !overread && rc == VERR_INVALID_PARAMETER && Value() == ZeroRule.(name := n)
      ensures forall n, ha, hp {:trigger HostOnlyAt(s, n, ha, hp)} ::
        HostOnlyAt(s, n, ha, hp) && |n| >= 2 && toU16(Truncate(hp, PORT_BUF_LEN)) != 0 ==> overread
    {
      Clear();
      var head := ParseHead(s);
      if head.None? {
        return VERR_INVALID_PARAMETER, false;
      }
      name := head.value;
      var protocol := ProtocolAsWritten(s, |name| + 1);
      rc, overread := ReadPairsAsWritten(s, |name| + 4, |s| - 4, protocol, fIPv6, toIPv4, toU16);
    }
  }
}
