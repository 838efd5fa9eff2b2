/**
 * `_normalize_ip` and `_is_valid_ipv4`, which blueprints/admin.py and
 * utils/interfaces.py both define, identically.  The address check is
 * Python's `ipaddress.ip_address` for a `str` (strict dotted quad, as since
 * Python 3.9.5) followed by `version == 4`, `not is_loopback` and
 * `not is_link_local`.
 */
module Ipv4 {
  import opened Wrappers
  import opened Text

  type Octet = x: nat | x < 256

  datatype Address = Address(a: Octet, b: Octet, c: Octet, d: Octet)

  /** `ip.split("/", 1)[0].strip()`: drop a CIDR suffix, then surrounding whitespace. */
  function Normalize(ip: string): (r: string)
    ensures '/' !in r
    ensures NoOuterSpace(r)
    ensures exists i: nat, j: nat :: TrimmedAt(TakeUntil(ip, '/'), r, i, j)
  {
    var head := TakeUntil(ip, '/');
    var r := Strip(head);
    assert exists i: nat, j: nat :: TrimmedAt(head, r, i, j);
    r
  }

  /** The canonical dotted-quad text of an address, as `str(IPv4Address)` gives it. */
  function Format(x: Address): string {
    NatToString(x.a) + "." + NatToString(x.b) + "." + NatToString(x.c) + "." + NatToString(x.d)
  }

  /**
   * One octet as `IPv4Address._parse_octet` reads it: non-empty, ASCII digits
   * only, at most three characters, no leading zero, at most 255.
   */
  function ParseOctet(p: string): Option<Octet> {
    if p == [] || !AllDigits(p) || |p| > 3 || (p != "0" && p[0] == '0') then None
    else if Value(p) > 255 then None
    else Some(Value(p))
  }

  /** `IPv4Address(s)`: exactly four dot-separated octets; `None` where Python raises. */
  function Parse(s: string): Option<Address> {
    var parts := Split(s, '.');
    if |parts| != 4 then None
    else
      match (ParseOctet(parts[0]), ParseOctet(parts[1]), ParseOctet(parts[2]), ParseOctet(parts[3]))
      case (Some(a), Some(b), Some(c), Some(d)) => Some(Address(a, b, c, d))
      case _ => None
  }

  /** Inside 127.0.0.0/8. */
  predicate IsLoopback(x: Address) {
    x.a == 127
  }

  /** Inside 169.254.0.0/16. */
  predicate IsLinkLocal(x: Address) {
    x.a == 169 && x.b == 254
  }

  predicate Routable(x: Address) {
    !IsLoopback(x) && !IsLinkLocal(x)
  }

  /**
   * `_is_valid_ipv4`: every failure to parse (IPv6 text included, which
   * `ip_address` accepts but `version == 4` rejects) yields false.
   */
  predicate IsValid(ip: string) {
    match Parse(Normalize(ip))
    case Some(x) => Routable(x)
    case None => false
  }

  // ------------------------------------------------------------- lemmas

  lemma OctetRoundTrip(n: Octet)
    ensures ParseOctet(NatToString(n)) == Some(n)
  {
    NatToStringShort(n);
  }

  lemma OctetCanonical(p: string, n: Octet)
    requires ParseOctet(p) == Some(n)
    ensures NatToString(n) == p
  {
    CanonicalRoundTrip(p);
  }

  /** The four octet texts of `x`, in order. */
  function OctetTexts(x: Address): (parts: seq<string>)
    ensures |parts| == 4 && Join(parts, '.') == Format(x)
    ensures forall k :: 0 <= k < 4 ==> AllDigits(parts[k])
  {
    var parts := [NatToString(x.a), NatToString(x.b), NatToString(x.c), NatToString(x.d)];
    assert parts[1..][1..][1..] == [parts[3]];
    assert Join(parts[1..][1..], '.') == parts[2] + "." + parts[3];
    assert Join(parts[1..], '.') == parts[1] + "." + parts[2] + "." + parts[3];
    parts
  }

  /** The text of an address has no '/' and no surrounding whitespace. */
  lemma FormatPlain(x: Address)
    ensures '/' !in Format(x) && NoOuterSpace(Format(x))
  {
    var sa, sb, sc, sd := NatToString(x.a), NatToString(x.b), NatToString(x.c), NatToString(x.d);
    DigitsHaveNoSeparator(sa, '/');
    DigitsHaveNoSeparator(sb, '/');
    DigitsHaveNoSeparator(sc, '/');
    DigitsHaveNoSeparator(sd, '/');
    var f := Format(x);
    assert f[0] == sa[0];
    assert f[|f| - 1] == sd[|sd| - 1];
  }

  /** Every address reads back from its own text. */
  lemma {:induction false} FormatParse(x: Address)
    ensures Parse(Format(x)) == Some(x)
  {
    var parts := OctetTexts(x);
    forall k | 0 <= k < 4 ensures '.' !in parts[k] {
      DigitsHaveNoSeparator(parts[k], '.');
    }
    SplitJoin(parts, '.');
    OctetRoundTrip(x.a);
    OctetRoundTrip(x.b);
    OctetRoundTrip(x.c);
    OctetRoundTrip(x.d);
  }

  /** Only canonical text parses: whatever parses is the text of what it parsed to. */
  lemma {:induction false} ParseFormat(s: string, x: Address)
    requires Parse(s) == Some(x)
    ensures Format(x) == s
  {
    var parts := Split(s, '.');
    OctetCanonical(parts[0], x.a);
    OctetCanonical(parts[1], x.b);
    OctetCanonical(parts[2], x.c);
    OctetCanonical(parts[3], x.d);
    assert parts == OctetTexts(x);
  }

  lemma ParseIff(s: string, x: Address)
    ensures Parse(s) == Some(x) <==> s == Format(x)
  {
    if Parse(s) == Some(x) {
      ParseFormat(s, x);
    }
    if s == Format(x) {
      FormatParse(x);
    }
  }

  lemma {:induction false} TakeUntilAbsent(s: string, c: char)
    requires c !in s
    ensures TakeUntil(s, c) == s
  {
  }

  /** Normalising twice is normalising once. */
  lemma NormalizeIdempotent(ip: string)
    ensures Normalize(Normalize(ip)) == Normalize(ip)
  {
    var n := Normalize(ip);
    TakeUntilAbsent(n, '/');
    StripKeepsUnpadded(n);
  }

  /**
   * `_is_valid_ipv4(ip)` holds exactly when the normalised text is the
   * dotted quad of an address outside 127.0.0.0/8 and 169.254.0.0/16.
   */
  lemma IsValidIff(ip: string)
    ensures IsValid(ip) <==> exists x :: Normalize(ip) == Format(x) && Routable(x)
  {
    var n := Normalize(ip);
    if IsValid(ip) {
      var x := Parse(n).value;
      ParseFormat(n, x);
    }
    if exists x :: n == Format(x) && Routable(x) {
      var x :| n == Format(x) && Routable(x);
      FormatParse(x);
    }
  }

  /** A valid address stays valid once normalised, and is then its own normal form. */
  lemma NormalizePreservesValid(ip: string)
    requires IsValid(ip)
    ensures IsValid(Normalize(ip)) && Normalize(Normalize(ip)) == Normalize(ip)
  {
    NormalizeIdempotent(ip);
  }

  /** A CIDR suffix never changes the verdict, and `Normalize` removes it. */
  lemma CidrSuffixIgnored(x: Address, suffix: string)
    ensures Normalize(Format(x) + "/" + suffix) == Format(x)
    ensures IsValid(Format(x) + "/" + suffix) == IsValid(Format(x)) == Routable(x)
  {
    var f := Format(x);
    FormatPlain(x);
    TakeUntilBeforeSeparator(f, '/', suffix);
    assert f + "/" + suffix == f + ['/'] + suffix;
    TakeUntilAbsent(f, '/');
    StripKeepsUnpadded(f);
    FormatParse(x);
  }
}
