/**
 * Windows firewall blocking (backend/utils/firewall.py): the IPv4 and IPv6
 * patterns, port stripping, address normalisation, the netsh `remoteip`
 * argument, the pair of rule names, and `block_ip` / `unblock_ip` /
 * `status_ip` acting on the table of firewall rules that netsh manages.
 */
module Firewall {
  import opened Wrappers
  import opened Text
  import opened Seqs

  const RulePrefix := "CyberShield Block"
  const NotWindowsMessage := "AUTO_BLOCK supported only on Windows in this build."
  const AdminMessage := "Admin rights required (run terminal as Administrator)."
  const NoRulesMatch := "No rules match the specified criteria."

  // ---------------------------------------------------------------- patterns

  /** One octet of the IPv4 pattern: `25[0-5]`, `2[0-4]\d` or `1?\d?\d`. */
  predicate IsOctet(s: string) {
    || (|s| == 3 && s[0] == '2' && s[1] == '5' && '0' <= s[2] <= '5')
    || (|s| == 3 && s[0] == '2' && '0' <= s[1] <= '4' && IsDigit(s[2]))
    || (|s| == 3 && s[0] == '1' && IsDigit(s[1]) && IsDigit(s[2]))
    || (|s| == 2 && IsDigit(s[0]) && IsDigit(s[1]))
    || (|s| == 1 && IsDigit(s[0]))
  }

  /**
   * An octet is one to three decimal digits worth at most 255, where only a
   * three-digit octet may not start with "0": so "7", "07", "255" pass and
   * "256", "001" do not.
   */
  lemma OctetIff(s: string)
    ensures IsOctet(s) <==>
      1 <= |s| <= 3 && AllDigits(s) && DigitsValue(s) <= 255 && !(|s| == 3 && s[0] == '0')
  {
    if |s| == 3 && AllDigits(s) {
      assert s[..2][..1] == s[..1];
      assert s[..1][..0] == [];
      assert DigitsValue(s) == 100 * DigitValue(s[0]) + 10 * DigitValue(s[1]) + DigitValue(s[2]);
    } else if |s| == 2 && AllDigits(s) {
      assert s[..1][..0] == [];
      assert DigitsValue(s[..1]) == DigitValue(s[0]);
      assert DigitsValue(s) == 10 * DigitValue(s[0]) + DigitValue(s[1]);
    }
  }

  /** Every number from 0 to 255, written in decimal, is an octet. */
  lemma CanonicalOctet(n: nat)
    requires n <= 255
    ensures IsOctet(NatToString(n))
  {
    var s := NatToString(n);
    if n >= 10 {
      assert s == NatToString(n / 10) + [DigitChar(n % 10)];
      if n / 10 >= 10 {
        assert NatToString(n / 10) == NatToString(n / 100) + [DigitChar(n / 10 % 10)];
        assert |NatToString(n / 100)| == 1;
      }
    }
    assert |s| <= 3;
    OctetIff(s);
  }

  /** The body of the IPv4 pattern: exactly four dot-separated octets. */
  predicate IsIPv4(s: string) {
    var parts := Split(s, '.');
    |parts| == 4 && forall p | p in parts :: IsOctet(p)
  }

  /**
   * Python's `re.match` of the anchored IPv4 pattern. Its `$` also matches in
   * front of one final newline, so "1.2.3.4\n" matches as well.
   */
  predicate MatchesIPv4(s: string) {
    IsIPv4(s) || (s != [] && s[|s| - 1] == '\n' && IsIPv4(s[..|s| - 1]))
  }

  /** `s` without one final newline, the part an anchored pattern must match in full. */
  function PatternBody(s: string): string {
    if s != [] && s[|s| - 1] == '\n' then s[..|s| - 1] else s
  }

  predicate IsHexOrColon(c: char) {
    '0' <= c <= '9' || 'a' <= c <= 'f' || 'A' <= c <= 'F' || c == ':'
  }

  /** The IPv6 pattern `^[0-9a-fA-F:]+$`, with the same `$` rule as `MatchesIPv4`. */
  predicate MatchesIPv6(s: string) {
    PatternBody(s) != [] && forall i | 0 <= i < |PatternBody(s)| :: IsHexOrColon(PatternBody(s)[i])
  }

  /** A matching IPv4 address contains no colon, slash, dash or comma. */
  lemma IPv4Characters(s: string)
    requires MatchesIPv4(s)
    ensures ':' !in s && '/' !in s && '-' !in s && ',' !in s
  {
    if IsIPv4(s) {
      BodyCharacters(s);
    } else {
      var body := s[..|s| - 1];
      BodyCharacters(body);
      if ':' in s { InInit(s, ':'); }
      if '/' in s { InInit(s, '/'); }
      if '-' in s { InInit(s, '-'); }
      if ',' in s { InInit(s, ','); }
    }
  }

  /** A character of `s` other than its last one occurs before the end. */
  lemma InInit(s: string, c: char)
    requires c in s && c != s[|s| - 1]
    ensures c in s[..|s| - 1]
  {
    var i :| 0 <= i < |s| && s[i] == c;
    assert s[..|s| - 1][i] == c;
  }

  /** A dotted quad holds no colon, slash, dash or comma. */
  lemma BodyCharacters(body: string)
    requires IsIPv4(body)
    ensures ':' !in body && '/' !in body && '-' !in body && ',' !in body
  {
    if ':' in body { OctetCharacters(body, ':'); }
    if '/' in body { OctetCharacters(body, '/'); }
    if '-' in body { OctetCharacters(body, '-'); }
    if ',' in body { OctetCharacters(body, ','); }
  }

  /** A dotted quad holds a dot. */
  lemma IPv4HasDot(body: string)
    requires IsIPv4(body)
    ensures '.' in body
  {
    assert multiset(body)['.'] == 3;
  }

  /** Every character of an IPv4 body other than a dot is a decimal digit. */
  lemma OctetCharacters(body: string, c: char)
    requires IsIPv4(body) && c in body && c != '.'
    ensures IsDigit(c)
  {
    var parts := Split(body, '.');
    assert Join(parts, ".") == body;
    JoinMember(parts, ".", c);
    var p :| p in parts && c in p;
    OctetDigits(p, c);
  }

  /** Every character of an octet is a decimal digit. */
  lemma OctetDigits(p: string, c: char)
    requires IsOctet(p) && c in p
    ensures IsDigit(c)
  {
    var i :| 0 <= i < |p| && p[i] == c;
  }

  /** A character of a joined string that is not in the separator comes from one of the parts. */
  lemma {:induction false} JoinMember(parts: seq<string>, sep: string, c: char)
    requires c in Join(parts, sep) && c !in sep
    ensures exists p | p in parts :: c in p
  {
    if |parts| > 1 {
      var rest := Join(parts[1..], sep);
      assert Join(parts, sep) == parts[0] + sep + rest;
      if c !in parts[0] {
        JoinMember(parts[1..], sep, c);
        var p :| p in parts[1..] && c in p;
      }
    } else {
      assert parts[0] in parts;
    }
  }

  /** No dotted-quad address matches the IPv6 pattern, so the two cases of `RemoteIpArg` never overlap. */
  lemma IPv4IsNotIPv6(s: string)
    ensures MatchesIPv4(s) ==> !MatchesIPv6(s)
  {
    if MatchesIPv4(s) {
      var body := if IsIPv4(s) then s else s[..|s| - 1];
      IPv4HasDot(body);
      if IsIPv4(s) {
        IPv4NoNewline(s);
      }
      DotIsNotIPv6(s, body);
    }
  }

  /** An IPv4 body holds no newline: its characters are digits and dots. */
  lemma IPv4NoNewline(s: string)
    requires IsIPv4(s)
    ensures s == [] || s[|s| - 1] != '\n'
  {
    if s != [] && s[|s| - 1] == '\n' {
      OctetCharacters(s, '\n');
    }
  }

  /** A string whose pattern body holds a dot does not match the IPv6 pattern. */
  lemma DotIsNotIPv6(s: string, body: string)
    requires body == PatternBody(s)
    requires '.' in body
    ensures !MatchesIPv6(s)
  {
    var i := IndexOf(body, '.');
    assert !IsHexOrColon(body[i]);
  }

  // ---------------------------------------------------------------- addresses

  /**
   * `_strip_port`: "[host]..." gives the text between the bracket and the
   * first "]"; "a.b.c.d:port" with a single colon gives the address; every
   * other string is kept.
   */
  function StripPort(s: string): (r: string)
    ensures |r| <= |s|
    ensures forall c | c in r :: c in s
    ensures r == s
         || (|r| + 2 <= |s| && s[0] == '[' && ']' !in r && s[..|r| + 2] == "[" + r + "]")
         || (|r| < |s| && MatchesIPv4(r) && Count(s, ':') == 1 && s[..|r| + 1] == r + ":")
  {
    if s == [] then s
    else if s[0] == '[' && ']' in s then BracketedHost(s)
    else if ':' in s && Count(s, ':') == 1 && MatchesIPv4(Split(s, ':')[0]) then HostBeforeColon(s)
    else s
  }

  /** The text between a leading "[" and the first "]". */
  function BracketedHost(s: string): (r: string)
    requires s != [] && s[0] == '[' && ']' in s
    ensures |r| + 2 <= |s| && ']' !in r && s[..|r| + 2] == "[" + r + "]"
    ensures forall c | c in r :: c in s
  {
    var k := IndexOf(s, ']');
    assert s[..k + 1] == "[" + s[1..k] + "]";
    s[1..k]
  }

  /** The text before the first ":", which is also the first piece of splitting at ":". */
  function HostBeforeColon(s: string): (r: string)
    requires ':' in s
    ensures |r| < |s| && s[..|r| + 1] == r + ":" && r == Split(s, ':')[0]
    ensures forall c | c in r :: c in s
  {
    var k := IndexOf(s, ':');
    assert s == s[..k] + [':'] + s[k + 1..];
    SplitAt(s[..k], ':', s[k + 1..]);
    s[..k]
  }

  /** A bracketed host is returned without brackets and port. */
  lemma StripBracketed(host: string, rest: string)
    requires ']' !in host
    ensures StripPort("[" + host + "]" + rest) == host
  {
    var s := "[" + host + "]" + rest;
    assert s[|host| + 1] == ']';
    var k := IndexOf(s, ']');
    assert s[1..k] == host;
  }

  /** An IPv4 address followed by ":port" is returned without the port. */
  lemma StripIPv4Port(ip: string, port: string)
    requires MatchesIPv4(ip) && ':' !in port
    ensures StripPort(ip + ":" + port) == ip
  {
    IPv4Characters(ip);
    var s := ip + ":" + port;
    assert s == ip + [':'] + port;
    SplitAt(ip, ':', port);
    assert multiset(s)[':'] == multiset(ip)[':'] + 1 + multiset(port)[':'];
    assert s[0] == ip[0] by { assert ip != []; }
    assert ip[0] != '[' by { IPv4NotBracket(ip); }
  }

  lemma IPv4NotBracket(ip: string)
    requires MatchesIPv4(ip)
    ensures ip != [] && ip[0] != '['
  {
    var body := if IsIPv4(ip) then ip else ip[..|ip| - 1];
    IPv4HasDot(body);
    if ip[0] == '[' {
      assert body[0] == '[';
      OctetCharacters(body, '[');
    }
  }

  /** A string without brackets whose colon count is not one is kept as it is. */
  lemma StripKeeps(s: string)
    requires (s == [] || s[0] != '[') && Count(s, ':') != 1
    ensures StripPort(s) == s
  {
  }

  /**
   * `_normalize_ip`: trim (a missing address counts as ""); when a "/" is
   * present, the port-stripped text before the first "/", then "/", then the
   * text up to the second "/"; otherwise the port-stripped text. The result
   * holds exactly one "/" when the trimmed input holds one, and none otherwise.
   */
  function NormalizeIp(ip: Option<string>): (r: string)
    ensures Count(r, '/') == if '/' in PyStrip(ip.GetOr("")) then 1 else 0
  {
    NormalizeTrimmed(PyStrip(ip.GetOr("")))
  }

  /** `_normalize_ip` after the trimming step. */
  function NormalizeTrimmed(t: string): (r: string)
    ensures Count(r, '/') == if '/' in t then 1 else 0
  {
    if '/' in t then
      var parts := Split(t, '/');
      assert parts[0] in parts && parts[1] in parts;
      var r := StripPort(parts[0]) + "/" + parts[1];
      assert multiset(r)['/'] == multiset(StripPort(parts[0]))['/'] + 1 + multiset(parts[1])['/'];
      r
    else
      var r := StripPort(t);
      assert '/' !in r;
      r
  }

  /** "host/mask/anything" keeps the port-stripped host and the mask and drops what follows a second "/". */
  lemma NormalizeCidr(host: string, mask: string, tail: string)
    requires '/' !in host && '/' !in mask
    requires tail == [] || tail[0] == '/'
    ensures NormalizeTrimmed(host + "/" + mask + tail) == StripPort(host) + "/" + mask
  {
    var t := host + "/" + mask + tail;
    CidrParts(host, mask, tail);
    assert t[|host|] == '/';
  }

  /** The first two "/"-separated parts of "host/mask/..." are the host and the mask. */
  lemma CidrParts(host: string, mask: string, tail: string)
    requires '/' !in host && '/' !in mask
    requires tail == [] || tail[0] == '/'
    ensures var parts := Split(host + "/" + mask + tail, '/');
            |parts| >= 2 && parts[0] == host && parts[1] == mask
  {
    var rest := mask + tail;
    assert host + "/" + mask + tail == host + ['/'] + rest;
    SplitAt(host, '/', rest);
    FirstPart(mask, tail);
  }

  lemma FirstPart(mask: string, tail: string)
    requires '/' !in mask
    requires tail == [] || tail[0] == '/'
    ensures Split(mask + tail, '/')[0] == mask
  {
    if tail == [] {
      assert mask + tail == mask;
      SplitNoSeparator(mask, '/');
    } else {
      assert mask + tail == mask + ['/'] + tail[1..];
      SplitAt(mask, '/', tail[1..]);
    }
  }

  /** Without a "/", normalising is trimming then stripping the port; a missing address becomes "". */
  lemma NormalizePlain(ip: Option<string>)
    requires '/' !in PyStrip(ip.GetOr(""))
    ensures NormalizeIp(ip) == StripPort(PyStrip(ip.GetOr("")))
    ensures ip == None ==> NormalizeIp(ip) == ""
  {
  }

  /** Neither "/" nor "-" nor ",": a single address rather than a CIDR block, range or list. */
  predicate IsSingleAddress(ip: string) {
    '/' !in ip && '-' !in ip && ',' !in ip
  }

  /**
   * `_remoteip_arg`: a single IPv4 address gets "/32", a single string of hex
   * digits and colons gets "/128", and everything else is passed through.
   */
  function RemoteIpArg(ip: string): string {
    if !IsSingleAddress(ip) then ip
    else if MatchesIPv4(ip) then ip + "/32"
    else if MatchesIPv6(ip) then ip + "/128"
    else ip
  }

  /**
   * The three outcomes of `RemoteIpArg`, each exactly when its condition
   * holds: the IPv4 and IPv6 cases never overlap.
   */
  lemma RemoteIpArgCases(ip: string)
    ensures RemoteIpArg(ip) == ip + "/32" <==> IsSingleAddress(ip) && MatchesIPv4(ip)
    ensures RemoteIpArg(ip) == ip + "/128" <==> IsSingleAddress(ip) && MatchesIPv6(ip)
    ensures RemoteIpArg(ip) == ip <==> !IsSingleAddress(ip) || (!MatchesIPv4(ip) && !MatchesIPv6(ip))
  {
    IPv4IsNotIPv6(ip);
    assert ip + "/32" != ip + "/128" by { assert (ip + "/32")[|ip| + 1] != (ip + "/128")[|ip| + 1]; }
    assert ip + "/32" != ip && ip + "/128" != ip;
  }

  /** Building the argument twice gives the same as once: an added mask makes the value a CIDR block. */
  lemma RemoteIpArgIdempotent(ip: string)
    ensures RemoteIpArg(RemoteIpArg(ip)) == RemoteIpArg(ip)
  {
    var r := RemoteIpArg(ip);
    if r != ip {
      assert r[|ip|] == '/';
      assert !IsSingleAddress(r);
    }
  }

  function InRuleName(ip: string): string { RulePrefix + " " + ip + " (in)" }
  function OutRuleName(ip: string): string { RulePrefix + " " + ip + " (out)" }

  /** `_rule_names`: the inbound and the outbound rule name of an address. */
  function RuleNames(ip: string): (names: (string, string))
    ensures names.0 != names.1
    ensures names == (InRuleName(ip), OutRuleName(ip))
  {
    var n := (InRuleName(ip), OutRuleName(ip));
    assert n.0[|n.0| - 2] != n.1[|n.1| - 2];
    n
  }

  /** An inbound name is never the outbound name of any address, and each name determines its address. */
  lemma RuleNamesDistinct(a: string, b: string)
    ensures InRuleName(a) != OutRuleName(b)
    ensures InRuleName(a) == InRuleName(b) ==> a == b
    ensures OutRuleName(a) == OutRuleName(b) ==> a == b
  {
    assert InRuleName(a)[|InRuleName(a)| - 2] == 'n';
    assert OutRuleName(b)[|OutRuleName(b)| - 2] == 't';
    if InRuleName(a) == InRuleName(b) {
      assert |a| == |b|;
      assert a == InRuleName(a)[18..18 + |a|];
    }
    if OutRuleName(a) == OutRuleName(b) {
      assert |a| == |b|;
      assert a == OutRuleName(a)[18..18 + |a|];
    }
  }

  // ---------------------------------------------------------------- rule table

  datatype Direction = Inbound | Outbound

  /** A netsh block rule: its display name, direction and `remoteip` value. */
  datatype Rule = Rule(name: string, dir: Direction, remoteIp: string)

  /** The rules that `netsh ... delete rule name=...` leaves: every rule with that name goes. */
  function Without(rules: seq<Rule>, name: string): seq<Rule> {
    Filter(rules, (x: Rule) => x.name != name)
  }

  /** The number of rules carrying `name` (netsh allows several rules with one name). */
  function Named(rules: seq<Rule>, name: string): nat {
    |Filter(rules, (x: Rule) => x.name == name)|
  }

  /** The table after a successful `block_ip` of the normalised address `ip`. */
  function AfterBlock(rules: seq<Rule>, ip: string): seq<Rule> {
    var (nameIn, nameOut) := RuleNames(ip);
    Without(Without(rules, nameIn), nameOut)
      + [Rule(nameIn, Inbound, RemoteIpArg(ip)), Rule(nameOut, Outbound, RemoteIpArg(ip))]
  }

  /** The table after a successful `unblock_ip` of the normalised address `ip`. */
  function AfterUnblock(rules: seq<Rule>, ip: string): seq<Rule> {
    var (nameIn, nameOut) := RuleNames(ip);
    Without(Without(rules, nameIn), nameOut)
  }

  lemma {:induction false} NamedAppend(a: seq<Rule>, b: seq<Rule>, name: string)
    ensures Named(a + b, name) == Named(a, name) + Named(b, name)
  {
    if a == [] {
      assert a + b == b;
    } else {
      assert (a + b)[1..] == a[1..] + b;
      NamedAppend(a[1..], b, name);
    }
  }

  lemma {:induction false} NamedWithout(rules: seq<Rule>, gone: string, name: string)
    ensures Named(Without(rules, gone), name) == if name == gone then 0 else Named(rules, name)
  {
    if rules != [] {
      NamedWithout(rules[1..], gone, name);
    }
  }

  lemma {:induction false} WithoutTwice(rules: seq<Rule>, a: string, b: string)
    ensures Without(Without(rules, a), b) == Without(Without(rules, b), a)
    ensures Without(Without(rules, a), a) == Without(rules, a)
  {
    if rules != [] {
      WithoutTwice(rules[1..], a, b);
    }
  }

  lemma {:induction false} WithoutAppend(a: seq<Rule>, b: seq<Rule>, name: string)
    ensures Without(a + b, name) == Without(a, name) + Without(b, name)
  {
    if a == [] {
      assert a + b == b;
    } else {
      assert (a + b)[1..] == a[1..] + b;
      WithoutAppend(a[1..], b, name);
    }
  }

  /** After a block, whatever the table held before, exactly one inbound and one outbound rule carry the address's names. */
  lemma BlockLeavesOnePair(rules: seq<Rule>, ip: string)
    ensures Named(AfterBlock(rules, ip), InRuleName(ip)) == 1
    ensures Named(AfterBlock(rules, ip), OutRuleName(ip)) == 1
  {
    var (nameIn, nameOut) := RuleNames(ip);
    var kept := Without(Without(rules, nameIn), nameOut);
    var added := [Rule(nameIn, Inbound, RemoteIpArg(ip)), Rule(nameOut, Outbound, RemoteIpArg(ip))];
    NamedAppend(kept, added, nameIn);
    NamedAppend(kept, added, nameOut);
    assert added == [added[0]] + [added[1]];
    NamedAppend([added[0]], [added[1]], nameOut);
    NamedAppend([added[0]], [added[1]], nameIn);
    NamedOne(added[0], nameIn);
    NamedOne(added[1], nameIn);
    NamedOne(added[0], nameOut);
    NamedOne(added[1], nameOut);
    NamedWithout(Without(rules, nameIn), nameOut, nameIn);
    NamedWithout(rules, nameIn, nameIn);
    NamedWithout(Without(rules, nameIn), nameOut, nameOut);
  }

  /** A single rule is counted once under its own name and not under any other. */
  lemma NamedOne(r: Rule, name: string)
    ensures Named([r], name) == if r.name == name then 1 else 0
  {
    assert [r][1..] == [];
  }

  /** Blocking the same address twice leaves the same table as blocking it once. */
  lemma BlockIdempotent(rules: seq<Rule>, ip: string)
    ensures AfterBlock(AfterBlock(rules, ip), ip) == AfterBlock(rules, ip)
  {
    var (nameIn, nameOut) := RuleNames(ip);
    var kept := Without(Without(rules, nameIn), nameOut);
    var added := [Rule(nameIn, Inbound, RemoteIpArg(ip)), Rule(nameOut, Outbound, RemoteIpArg(ip))];
    assert AfterBlock(rules, ip) == kept + added;
    StripAddedPair(kept, added, nameIn, nameOut);
    KeptIsStable(rules, nameIn, nameOut);
  }

  /** Deleting both names from the table plus the new pair deletes the pair. */
  lemma StripAddedPair(kept: seq<Rule>, added: seq<Rule>, nameIn: string, nameOut: string)
    requires nameIn != nameOut
    requires |added| == 2 && added[0].name == nameIn && added[1].name == nameOut
    ensures Without(Without(kept + added, nameIn), nameOut) == Without(Without(kept, nameIn), nameOut)
  {
    WithoutAppend(kept, added, nameIn);
    WithoutAppend(Without(kept, nameIn), Without(added, nameIn), nameOut);
    assert added[1..] == [added[1]] && added[1..][1..] == [];
    assert Without(added, nameIn) == Without([added[1]], nameIn);
    assert Without([added[1]], nameIn) == [added[1]] + Without([], nameIn);
    assert Without([added[1]], nameOut) == [];
  }

  /** A table already cleared of both names stays the same when both are deleted again. */
  lemma KeptIsStable(rules: seq<Rule>, nameIn: string, nameOut: string)
    ensures var kept := Without(Without(rules, nameIn), nameOut);
            Without(Without(kept, nameIn), nameOut) == kept
  {
    var once := Without(rules, nameIn);
    WithoutTwice(once, nameOut, nameIn);
    WithoutTwice(rules, nameIn, nameIn);
    WithoutTwice(once, nameOut, nameOut);
  }

  /** Unblocking after blocking leaves what unblocking alone leaves: no rule of the address survives. */
  lemma UnblockUndoesBlock(rules: seq<Rule>, ip: string)
    ensures AfterUnblock(AfterBlock(rules, ip), ip) == AfterUnblock(rules, ip)
    ensures Named(AfterUnblock(rules, ip), InRuleName(ip)) == 0
    ensures Named(AfterUnblock(rules, ip), OutRuleName(ip)) == 0
  {
    var (nameIn, nameOut) := RuleNames(ip);
    var kept := Without(Without(rules, nameIn), nameOut);
    var added := [Rule(nameIn, Inbound, RemoteIpArg(ip)), Rule(nameOut, Outbound, RemoteIpArg(ip))];
    assert AfterBlock(rules, ip) == kept + added;
    StripAddedPair(kept, added, nameIn, nameOut);
    KeptIsStable(rules, nameIn, nameOut);
    NamedWithout(Without(rules, nameIn), nameOut, nameIn);
    NamedWithout(rules, nameIn, nameIn);
    NamedWithout(Without(rules, nameIn), nameOut, nameOut);
  }

  /**
   * The text `_run` passes on when netsh refuses an `add rule` whose
   * `remoteip=` value it cannot parse. netsh's own wording is not part of
   * this model; only that the output is not empty matters here.
   */
  const RefusedMessage := "netsh refused the remoteip value."

  /**
   * The rule table of one machine as netsh manages it, with the facts
   * `_run` and `_is_windows` depend on: whether the platform is Windows,
   * whether the backend runs elevated (netsh refuses changes otherwise),
   * and which `remoteip=` values netsh accepts (`_remoteip_arg` passes
   * names and malformed input through for netsh to judge).
   */
  class RuleTable {
    const windows: bool
    const elevated: bool
    const accepts: string -> bool
    var rules: seq<Rule>

    constructor (windows: bool, elevated: bool, accepts: string -> bool, rules: seq<Rule>)
      ensures this.windows == windows && this.elevated == elevated && this.accepts == accepts
      ensures this.rules == rules
    {
      this.windows := windows;
      this.elevated := elevated;
      this.accepts := accepts;
      this.rules := rules;
    }

    /**
     * The table `block_ip` of the normalized address leaves behind: nothing
     * runs off Windows and nothing changes without elevation; otherwise both
     * named rules are deleted and the new pair is added only when netsh
     * accepts its `remoteip=` value.
     */
    function Blocked(before: seq<Rule>, ip: string): seq<Rule>
    {
      if !windows || !elevated then before
      else if accepts(RemoteIpArg(ip)) then AfterBlock(before, ip)
      else AfterUnblock(before, ip)
    }

    /** `_run` of `netsh advfirewall firewall delete rule name=...`: fails without elevation or without a matching rule. */
    method RunDelete(name: string) returns (ok: bool, out: string)
      modifies this`rules
      ensures ok == (elevated && Named(old(rules), name) > 0)
      ensures rules == if elevated then Without(old(rules), name) else old(rules)
      ensures !elevated ==> out == AdminMessage
    {
      if !elevated {
        return false, AdminMessage;
      }
      var present := Named(rules, name) > 0;
      if !present {
        NamedZeroWithout(rules, name);
        return false, NoRulesMatch;
      }
      rules := Without(rules, name);
      return true, "";
    }

    /**
     * `_run` of `netsh advfirewall firewall add rule ...`: appends the rule
     * when elevated and netsh accepts its `remoteip=` value; a refusal is
     * reported with netsh's (non-empty) output and adds nothing.
     */
    method RunAdd(rule: Rule) returns (ok: bool, out: string)
      modifies this`rules
      ensures ok == (elevated && accepts(rule.remoteIp))
      ensures rules == if ok then old(rules) + [rule] else old(rules)
      ensures !elevated ==> out == AdminMessage
      ensures !ok ==> out != ""
    {
      if !elevated {
        return false, AdminMessage;
      }
      if !accepts(rule.remoteIp) {
        return false, RefusedMessage;
      }
      rules := rules + [rule];
      return true, "";
    }

    /** The text `netsh` prints when no rule matches carries the phrase `is_blocked` looks for. */
    static lemma NoRulesMatchSays()
      ensures Contains(NoRulesMatch, "No rules match")
    {
      var phrase := "No rules match";
      assert NoRulesMatch[..|phrase|] == phrase;
    }

    /** `_run` of `netsh advfirewall firewall show rule name=...`: reports "No rules match" when no rule carries the name. */
    method RunShow(name: string) returns (ok: bool, out: string)
      ensures ok == (Named(rules, name) > 0)
      ensures Contains(out, "No rules match") <==> Named(rules, name) == 0
    {
      if Named(rules, name) == 0 {
        NoRulesMatchSays();
        return false, NoRulesMatch;
      }
      return true, "";
    }

    /** The two deletions `block_ip` starts with: each named rule goes when elevated. */
    method DeletePair(nameIn: string, nameOut: string)
      modifies this`rules
      ensures rules == if elevated then Without(Without(old(rules), nameIn), nameOut) else old(rules)
    {
      var _, _ := RunDelete(nameIn);
      var _, _ := RunDelete(nameOut);
    }

    /**
     * The two additions `block_ip` ends with: each runs whatever the other
     * did, and each rule is appended, in order, exactly when its addition
     * succeeds.
     */
    method AddPair(ruleIn: Rule, ruleOut: Rule) returns (okIn: bool, outIn: string, okOut: bool, outOut: string)
      modifies this`rules
      ensures okIn == (elevated && accepts(ruleIn.remoteIp))
      ensures okOut == (elevated && accepts(ruleOut.remoteIp))
      ensures rules == old(rules) + (if okIn then [ruleIn] else []) + (if okOut then [ruleOut] else [])
      ensures !okIn ==> outIn != ""
      ensures !okOut ==> outOut != ""
    {
      okIn, outIn := RunAdd(ruleIn);
      okOut, outOut := RunAdd(ruleOut);
    }

    /**
     * What a block leaves on this machine: with admin rights on Windows,
     * exactly one rule under each of the address's names when netsh takes
     * the `remoteip=` value and none when it refuses it (the deletions ran
     * regardless); and blocking twice leaves what blocking once leaves.
     */
    lemma BlockedOutcome(before: seq<Rule>, ip: string)
      ensures windows && elevated ==>
                Named(Blocked(before, ip), InRuleName(ip)) == (if accepts(RemoteIpArg(ip)) then 1 else 0)
      ensures windows && elevated ==>
                Named(Blocked(before, ip), OutRuleName(ip)) == (if accepts(RemoteIpArg(ip)) then 1 else 0)
      ensures Blocked(Blocked(before, ip), ip) == Blocked(before, ip)
    {
      var (nameIn, nameOut) := RuleNames(ip);
      BlockLeavesOnePair(before, ip);
      BlockIdempotent(before, ip);
      UnblockUndoesBlock(before, ip);
      KeptIsStable(before, nameIn, nameOut);
    }

    /**
     * The netsh part of `block_ip` on Windows for the normalized address:
     * delete both named rules, then add both with its `remoteip=` value.
     */
    method ReplacePair(normalized: string) returns (okIn: bool, outIn: string, okOut: bool, outOut: string)
      requires windows
      modifies this`rules
      ensures okIn == okOut == (elevated && accepts(RemoteIpArg(normalized)))
      ensures rules == Blocked(old(rules), normalized)
    {
      var remoteIp := RemoteIpArg(normalized);
      var (nameIn, nameOut) := RuleNames(normalized);
      DeletePair(nameIn, nameOut);
      ghost var deleted := rules;
      var ruleIn, ruleOut := Rule(nameIn, Inbound, remoteIp), Rule(nameOut, Outbound, remoteIp);
      okIn, outIn, okOut, outOut := AddPair(ruleIn, ruleOut);
      if okIn {
        assert rules == deleted + [ruleIn, ruleOut];
      }
    }

    /**
     * `block_ip`: off Windows, fails with a fixed message and runs nothing;
     * otherwise deletes both named rules, then adds both, and succeeds only
     * if both additions succeed, which needs elevation and a `remoteip=`
     * value netsh accepts.
     */
    method BlockIp(ip: string) returns (ok: bool, msg: string)
      modifies this`rules
      ensures !windows ==> !ok && msg == NotWindowsMessage
      ensures windows ==> ok == (elevated && accepts(RemoteIpArg(NormalizeIp(Some(ip)))))
      ensures rules == Blocked(old(rules), NormalizeIp(Some(ip)))
    {
      if !windows {
        return false, NotWindowsMessage;
      }
      var okIn, outIn, okOut, outOut := ReplacePair(NormalizeIp(Some(ip)));
      ok := okIn && okOut;
      msg := "IN: " + (if outIn != "" then outIn else "Ok.") + " | OUT: " + (if outOut != "" then outOut else "Ok.");
    }

    /** `unblock_ip`: off Windows, fails and runs nothing; otherwise deletes both named rules and succeeds if either deletion did. */
    method UnblockIp(ip: string) returns (ok: bool, msg: string)
      modifies this`rules
      ensures !windows ==> !ok && msg == NotWindowsMessage && rules == old(rules)
      ensures windows ==> ok == (elevated && (Named(old(rules), InRuleName(NormalizeIp(Some(ip)))) > 0
                                              || Named(old(rules), OutRuleName(NormalizeIp(Some(ip)))) > 0))
      ensures windows ==> rules == if elevated then AfterUnblock(old(rules), NormalizeIp(Some(ip))) else old(rules)
    {
      if !windows {
        return false, NotWindowsMessage;
      }
      var normalized := NormalizeIp(Some(ip));
      var (nameIn, nameOut) := RuleNames(normalized);
      var ok1, out1 := RunDelete(nameIn);
      if elevated { NamedWithout(old(rules), nameIn, nameOut); }
      var ok2, out2 := RunDelete(nameOut);
      ok := ok1 || ok2;
      msg := "IN: " + (if out1 != "" then out1 else "none") + " | OUT: " + (if out2 != "" then out2 else "none");
    }

    /** `status_ip`: off Windows, "does not exist"; otherwise whether a rule carries either name. */
    method StatusIp(ip: string) returns (found: bool, msg: string)
      ensures found == (windows && (Named(rules, InRuleName(NormalizeIp(Some(ip)))) > 0
                                      || Named(rules, OutRuleName(NormalizeIp(Some(ip)))) > 0))
      ensures !windows ==> msg == "Not Windows."
    {
      if !windows {
        return false, "Not Windows.";
      }
      var normalized := NormalizeIp(Some(ip));
      var (nameIn, nameOut) := RuleNames(normalized);
      var ok1, out1 := RunShow(nameIn);
      var ok2, out2 := RunShow(nameOut);
      found := !Contains(out1, "No rules match") || !Contains(out2, "No rules match");
      msg := "IN: " + (if out1 != "" then out1 else "none") + " | OUT: " + (if out2 != "" then out2 else "none");
    }
  }

  /** Deleting a name no rule carries leaves the table as it is. */
  lemma {:induction false} NamedZeroWithout(rules: seq<Rule>, name: string)
    requires Named(rules, name) == 0
    ensures Without(rules, name) == rules
  {
    if rules != [] {
      NamedZeroWithout(rules[1..], name);
      assert rules == [rules[0]] + rules[1..];
    }
  }
}
