/**
 * The owner name of the PTR query made for a hop's address
 * (`ReverseDnsProvider::ip_to_ptr_name`): the IN-ADDR.ARPA form of RFC 1035
 * section 3.5 for IPv4 and the nibble form of RFC 3596 section 2.5 for IPv6.
 * The DNS client that sends the query is not part of this model.
 */
module ReverseDns {
  import opened Wrappers
  import opened Bytes
  import opened Common
  import opened Text
  import opened Net

  /** Each byte as its high nibble then its low nibble (`b >> 4`, `b & 0x0f`). */
  function Nibbles(o: seq<byte>): (r: seq<nat>)
    ensures |r| == 2 * |o|
    ensures forall i :: 0 <= i < |r| ==> r[i] < 16
  {
    seq(2 * |o|, i requires 0 <= i < 2 * |o| => if i % 2 == 0 then o[i / 2] / 16 else o[i / 2] % 16)
  }

  function Reverse<T>(s: seq<T>): (r: seq<T>)
    ensures |r| == |s|
    ensures forall i :: 0 <= i < |s| ==> r[i] == s[|s| - 1 - i]
  {
    seq(|s|, i requires 0 <= i < |s| => s[|s| - 1 - i])
  }

  /** The 32 nibbles of an IPv6 address, last first, each as a one-digit label. */
  function NibbleLabels(o: Octets16): (r: seq<string>)
    ensures |r| == 32
    ensures forall i :: 0 <= i < 32 ==> |r[i]| == 1 && IsHexDigit(r[i][0])
  {
    var n := Reverse(Nibbles(o));
    seq(32, i requires 0 <= i < 32 => [HexDigit(n[i])])
  }

  /** `ip_to_ptr_name`: the absolute owner name, ending in the root's dot. */
  function PtrName(ip: IpAddr): string
  {
    match ip
    case V4(o) =>
      Decimal(o[3]) + "." + Decimal(o[2]) + "." + Decimal(o[1]) + "." + Decimal(o[0]) + ".in-addr.arpa."
    case V6(o) =>
      Join(NibbleLabels(o), '.') + ".ip6.arpa."
  }

  /**
   * The labels of the name, in order, the last one being the empty root
   * label: the four octets last first then "in-addr", "arpa" for IPv4; the
   * 32 nibbles last first then "ip6", "arpa" for IPv6.
   */
  function Labels(ip: IpAddr): (r: seq<string>)
    ensures ip.V4? ==> |r| == 7
    ensures ip.V6? ==> |r| == 35
    ensures r[|r| - 1] == ""
  {
    match ip
    case V4(o) => [Decimal(o[3]), Decimal(o[2]), Decimal(o[1]), Decimal(o[0]), "in-addr", "arpa", ""]
    case V6(o) => NibbleLabels(o) + ["ip6", "arpa", ""]
  }

  /** A label read back as an octet: decimal digits whose value is below 256. */
  function ParseOctet(s: string): (r: Option<byte>)
    ensures r.Some? ==> ParseDecimal(s) == Some(r.value as nat)
  {
    match ParseDecimal(s)
    case Some(v) => if v < 256 then Some(v) else None
    case None => None
  }

  /** The address a reverse name stands for, if it has one of the two forms. */
  function ParsePtrName(name: string): Option<IpAddr>
  {
    var parts := Split(name, '.');
    if |parts| == 7 && parts[4..] == ["in-addr", "arpa", ""] then
      match (ParseOctet(parts[3]), ParseOctet(parts[2]), ParseOctet(parts[1]), ParseOctet(parts[0]))
      case (Some(a), Some(b), Some(c), Some(d)) => Some(V4([a, b, c, d]))
      case _ => None
    else if |parts| == 35 && parts[32..] == ["ip6", "arpa", ""] && HexLabels(parts[..32]) then
      Some(V6(FromNibbles(ReadNibbles(parts[..32]))))
    else None
  }

  predicate HexLabels(labels: seq<string>)
  {
    forall i :: 0 <= i < |labels| ==> |labels[i]| == 1 && IsHexDigit(labels[i][0])
  }

  /** The nibble values of one-digit labels, last label first. */
  function ReadNibbles(labels: seq<string>): (r: seq<nat>)
    requires HexLabels(labels)
    ensures |r| == |labels|
    ensures forall i :: 0 <= i < |r| ==> r[i] < 16
  {
    seq(|labels|, i requires 0 <= i < |labels| => HexValue(labels[|labels| - 1 - i][0]).value)
  }

  /** Pairs of nibbles, high one first, as bytes. */
  function FromNibbles(n: seq<nat>): (r: seq<byte>)
    requires |n| % 2 == 0
    requires forall i :: 0 <= i < |n| ==> n[i] < 16
    ensures |r| == |n| / 2
  {
    seq(|n| / 2, j requires 0 <= j < |n| / 2 => n[2 * j] * 16 + n[2 * j + 1])
  }

  lemma FromNibblesInverse(o: seq<byte>)
    ensures FromNibbles(Nibbles(o)) == o
  {
    var n := Nibbles(o);
    forall j | 0 <= j < |o|
      ensures FromNibbles(n)[j] == o[j]
    {
      assert n[2 * j] == o[j] / 16 && n[2 * j + 1] == o[j] % 16;
    }
  }

  lemma ReadNibbleLabels(o: Octets16)
    ensures HexLabels(NibbleLabels(o))
    ensures ReadNibbles(NibbleLabels(o)) == Nibbles(o)
  {
    var nib := Nibbles(o);
    forall i | 0 <= i < 32
      ensures ReadNibbles(NibbleLabels(o))[i] == nib[i]
    {
      HexRoundTrip(Reverse(nib)[31 - i]);
    }
  }

  lemma NoDotInDecimal(n: nat)
    ensures '.' !in Decimal(n)
  {
  }

  /** The name is its labels joined by dots. */
  lemma PtrNameIsJoin(ip: IpAddr)
    ensures PtrName(ip) == Join(Labels(ip), '.')
  {
    match ip
    case V4(o) => PtrNameIsJoinV4(o);
    case V6(o) =>
      var tail := ["ip6", "arpa", ""];
      assert Join(tail, '.') == "ip6.arpa.";
      JoinAppend(NibbleLabels(o), tail, '.');
  }

  lemma PtrNameIsJoinV4(o: Octets4)
    ensures PtrName(V4(o)) == Join(Labels(V4(o)), '.')
  {
    var l := Labels(V4(o));
    var suffix := ".in-addr.arpa.";
    assert Join(l[6..], '.') == "";
    assert Join(l[5..], '.') == "arpa.";
    assert Join(l[4..], '.') == suffix[1..];
    var s0 := Decimal(o[0]) + suffix;
    assert Join(l[3..], '.') == s0;
    var s1 := Decimal(o[1]) + "." + s0;
    assert Join(l[2..], '.') == s1;
    var s2 := Decimal(o[2]) + "." + s1;
    assert Join(l[1..], '.') == s2;
    assert l == l[0..];
    assert Join(l, '.') == Decimal(o[3]) + "." + s2;
  }

  /**
   * Splitting the name at its dots gives its labels: 7 pieces for IPv4 and
   * 35 for IPv6, the last one empty, so IPv4 names have 6 labels, IPv6 names
   * 34, and every name is absolute.
   */
  lemma PtrNameLabels(ip: IpAddr)
    ensures Split(PtrName(ip), '.') == Labels(ip)
    ensures PtrName(ip)[|PtrName(ip)| - 1] == '.'
  {
    PtrNameIsJoin(ip);
    var l := Labels(ip);
    forall i | 0 <= i < |l|
      ensures '.' !in l[i]
    {
      match ip
      case V4(o) =>
        if i < 4 { NoDotInDecimal(o[3 - i]); }
      case V6(o) =>
        if i < 32 {
          assert |l[i]| == 1 && IsHexDigit(l[i][0]);
        }
    }
    SplitJoin(l, '.');
  }

  lemma OctetRoundTrip(b: byte)
    ensures ParseOctet(Decimal(b)) == Some(b)
  {
    DecimalRoundTrip(b);
  }

  /** The name determines the address: reading the labels back recovers the octets or nibbles. */
  lemma ParsePtrNameRoundTrip(ip: IpAddr)
    ensures ParsePtrName(PtrName(ip)) == Some(ip)
  {
    PtrNameLabels(ip);
    match ip
    case V4(o) => ParseV4Labels(o);
    case V6(o) => ParseV6Labels(o);
  }

  lemma ParseV4Labels(o: Octets4)
    ensures var parts := Labels(V4(o));
      && ParseOctet(parts[3]) == Some(o[0]) && ParseOctet(parts[2]) == Some(o[1])
      && ParseOctet(parts[1]) == Some(o[2]) && ParseOctet(parts[0]) == Some(o[3])
      && [o[0], o[1], o[2], o[3]] == o
  {
    OctetRoundTrip(o[0]);
    OctetRoundTrip(o[1]);
    OctetRoundTrip(o[2]);
    OctetRoundTrip(o[3]);
  }

  lemma ParseV6Labels(o: Octets16)
    ensures var parts := Labels(V6(o));
      && parts[32..] == ["ip6", "arpa", ""]
      && parts[..32] == NibbleLabels(o)
      && HexLabels(parts[..32])
      && FromNibbles(ReadNibbles(parts[..32])) == o
  {
    var parts := Labels(V6(o));
    assert parts[32..] == ["ip6", "arpa", ""];
    assert parts[..32] == NibbleLabels(o);
    ReadNibbleLabels(o);
    FromNibblesInverse(o);
  }

  /** Distinct addresses have distinct reverse names. */
  lemma PtrNameInjective(a: IpAddr, b: IpAddr)
    ensures PtrName(a) == PtrName(b) <==> a == b
  {
    if PtrName(a) == PtrName(b) {
      ParsePtrNameRoundTrip(a);
      ParsePtrNameRoundTrip(b);
    }
  }

  /**
   * A well-formed absolute domain name (RFC 1035 section 2.3.4): at most 255
   * characters, every label but the final root label 1 to 63 characters.
   */
  predicate ValidAbsoluteName(name: string)
  {
    var parts := Split(name, '.');
    && |name| <= 255
    && parts[|parts| - 1] == ""
    && forall i :: 0 <= i < |parts| - 1 ==> 1 <= |parts[i]| <= 63
  }

  /** The name meets the label and length limits of section 2.3.4 of RFC 1035 and is absolute. */
  lemma PtrNameValid(ip: IpAddr)
    ensures ValidAbsoluteName(PtrName(ip))
    ensures ip.V4? ==> |PtrName(ip)| <= 29
    ensures ip.V6? ==> |PtrName(ip)| == 73
  {
    match ip
    case V4(o) => PtrNameValidV4(o);
    case V6(o) => PtrNameValidV6(o);
  }

  lemma PtrNameValidV4(o: Octets4)
    ensures ValidAbsoluteName(PtrName(V4(o)))
    ensures |PtrName(V4(o))| <= 29
  {
    PtrNameLabels(V4(o));
    DecimalLength(o[0]);
    DecimalLength(o[1]);
    DecimalLength(o[2]);
    DecimalLength(o[3]);
  }

  lemma PtrNameValidV6(o: Octets16)
    ensures ValidAbsoluteName(PtrName(V6(o)))
    ensures |PtrName(V6(o))| == 73
  {
    PtrNameLabels(V6(o));
    JoinLength(NibbleLabels(o), '.', 1);
    var parts := Labels(V6(o));
    assert forall i :: 0 <= i < 32 ==> |parts[i]| == 1;
  }

  /** The unit test's IPv4 case: 1.2.3.4. */
  lemma ExampleV4()
    ensures PtrName(V4([1, 2, 3, 4])) == "4.3.2.1.in-addr.arpa."
  {
  }

  /**
   * The unit test's IPv6 case, 2001:db8::1, label by label: 1, twenty-three
   * zeros, then 8, b, d, 0, 1, 0, 0, 2, followed by ip6, arpa and the root.
   */
  lemma ExampleV6()
    ensures Labels(V6(ExampleV6Octets())) == ExampleV6NibbleLabels() + ["ip6", "arpa", ""]
    ensures PtrName(V6(ExampleV6Octets())) == "1.0.0.0.0.0.0.0.0.0.0.0.0.0.0.0.0.0.0.0.0.0.0.0.8.b.d.0.1.0.0.2.ip6.arpa."
  {
    ExampleV6Nibbles();
    ExampleV6Reverse(Nibbles(ExampleV6Octets()));
    ExampleV6Digits(Reverse(Nibbles(ExampleV6Octets())));
    var j := "1.0.0.0.0.0.0.0.0.0.0.0.0.0.0.0.0.0.0.0.0.0.0.0.8.b.d.0.1.0.0.2";
    ExampleV6Split();
    ExampleV6Joined(ExampleV6NibbleLabels(), ["1", "0", "0", "0", "0", "0", "0", "0"], ["0", "0", "0", "0", "0", "0", "0", "0"], ["8", "b", "d", "0", "1", "0", "0", "2"]);
    NameFromLabels(ExampleV6Octets(), ExampleV6NibbleLabels(), j);
    ExampleV6Suffix(j);
  }

  /** An IPv6 name is its nibble labels joined, then ".ip6.arpa.". */
  lemma NameFromLabels(o: Octets16, e: seq<string>, j: string)
    requires Labels(V6(o)) == e + ["ip6", "arpa", ""] && |e| == 32 && Join(e, '.') == j
    ensures PtrName(V6(o)) == j + ".ip6.arpa."
  {
    assert NibbleLabels(o) == Labels(V6(o))[..32] == e;
  }

  lemma ExampleV6Suffix(j: string)
    requires j == "1.0.0.0.0.0.0.0.0.0.0.0.0.0.0.0.0.0.0.0.0.0.0.0.8.b.d.0.1.0.0.2"
    ensures j + ".ip6.arpa." == "1.0.0.0.0.0.0.0.0.0.0.0.0.0.0.0.0.0.0.0.0.0.0.0.8.b.d.0.1.0.0.2.ip6.arpa."
  {
  }

  /** The example's nibble labels in four runs of eight. */
  lemma ExampleV6Split()
    ensures ExampleV6NibbleLabels() == ["1", "0", "0", "0", "0", "0", "0", "0"] + ["0", "0", "0", "0", "0", "0", "0", "0"] + ["0", "0", "0", "0", "0", "0", "0", "0"] + ["8", "b", "d", "0", "1", "0", "0", "2"]
  {
  }

  /** The 32 example nibble labels joined by dots, eight labels at a time. */
  lemma ExampleV6Joined(e: seq<string>, a: seq<string>, z: seq<string>, d: seq<string>)
    requires a == ["1", "0", "0", "0", "0", "0", "0", "0"] && z == ["0", "0", "0", "0", "0", "0", "0", "0"] && d == ["8", "b", "d", "0", "1", "0", "0", "2"] && e == a + z + z + d
    ensures Join(e, '.') == "1.0.0.0.0.0.0.0.0.0.0.0.0.0.0.0.0.0.0.0.0.0.0.0.8.b.d.0.1.0.0.2"
  {
    ExampleV6Eighths();
    JoinQuarters(e, a, z, d, "1.0.0.0.0.0.0.0", "0.0.0.0.0.0.0.0", "8.b.d.0.1.0.0.2");
    ExampleV6Text("1.0.0.0.0.0.0.0", "0.0.0.0.0.0.0.0", "1.0.0.0.0.0.0.0.0.0.0.0.0.0.0.0");
    ExampleV6Text("1.0.0.0.0.0.0.0.0.0.0.0.0.0.0.0", "0.0.0.0.0.0.0.0", "1.0.0.0.0.0.0.0.0.0.0.0.0.0.0.0.0.0.0.0.0.0.0.0");
    ExampleV6Text("1.0.0.0.0.0.0.0.0.0.0.0.0.0.0.0.0.0.0.0.0.0.0.0", "8.b.d.0.1.0.0.2", "1.0.0.0.0.0.0.0.0.0.0.0.0.0.0.0.0.0.0.0.0.0.0.0.8.b.d.0.1.0.0.2");
  }

  /** One step of assembling the example's text. */
  lemma ExampleV6Text(s: string, t: string, r: string)
    requires (s, t, r) in {("1.0.0.0.0.0.0.0", "0.0.0.0.0.0.0.0", "1.0.0.0.0.0.0.0.0.0.0.0.0.0.0.0"), ("1.0.0.0.0.0.0.0.0.0.0.0.0.0.0.0", "0.0.0.0.0.0.0.0", "1.0.0.0.0.0.0.0.0.0.0.0.0.0.0.0.0.0.0.0.0.0.0.0"), ("1.0.0.0.0.0.0.0.0.0.0.0.0.0.0.0.0.0.0.0.0.0.0.0", "8.b.d.0.1.0.0.2", "1.0.0.0.0.0.0.0.0.0.0.0.0.0.0.0.0.0.0.0.0.0.0.0.8.b.d.0.1.0.0.2")}
    ensures s + "." + t == r
  {
  }

  lemma ExampleV6Eighths()
    ensures Join(["1", "0", "0", "0", "0", "0", "0", "0"], '.') == "1.0.0.0.0.0.0.0"
    ensures Join(["0", "0", "0", "0", "0", "0", "0", "0"], '.') == "0.0.0.0.0.0.0.0"
    ensures Join(["8", "b", "d", "0", "1", "0", "0", "2"], '.') == "8.b.d.0.1.0.0.2"
  {
    ExampleV6FirstEighth();
    ExampleV6ZeroEighth();
    ExampleV6LastEighth();
  }

  lemma ExampleV6FirstEighth()
    ensures Join(["1", "0", "0", "0", "0", "0", "0", "0"], '.') == "1.0.0.0.0.0.0.0"
  {
    assert ["1", "0", "0", "0", "0", "0", "0", "0"] == ["1", "0", "0", "0"] + ["0", "0", "0", "0"];
    JoinAppend(["1", "0", "0", "0"], ["0", "0", "0", "0"], '.');
  }

  lemma ExampleV6ZeroEighth()
    ensures Join(["0", "0", "0", "0", "0", "0", "0", "0"], '.') == "0.0.0.0.0.0.0.0"
  {
    assert ["0", "0", "0", "0", "0", "0", "0", "0"] == ["0", "0", "0", "0"] + ["0", "0", "0", "0"];
    JoinAppend(["0", "0", "0", "0"], ["0", "0", "0", "0"], '.');
  }

  lemma ExampleV6LastEighth()
    ensures Join(["8", "b", "d", "0", "1", "0", "0", "2"], '.') == "8.b.d.0.1.0.0.2"
  {
    assert ["8", "b", "d", "0", "1", "0", "0", "2"] == ["8", "b", "d", "0"] + ["1", "0", "0", "2"];
    JoinAppend(["8", "b", "d", "0"], ["1", "0", "0", "2"], '.');
  }

  /** Joining four runs of labels, the middle two equal. */
  lemma JoinQuarters(e: seq<string>, a: seq<string>, z: seq<string>, d: seq<string>, sa: string, sz: string, sd: string)
    requires e == a + z + z + d && |a| >= 1 && |z| >= 1 && |d| >= 1
    requires Join(a, '.') == sa && Join(z, '.') == sz && Join(d, '.') == sd
    ensures Join(e, '.') == sa + "." + sz + "." + sz + "." + sd
  {
    JoinAppend(a, z, '.');
    JoinAppend(a + z, z, '.');
    JoinAppend(a + z + z, d, '.');
  }

  function ExampleV6Octets(): Octets16
  {
    [0x20, 0x01, 0x0d, 0xb8, 0, 0, 0, 0, 0, 0, 0, 0, 0, 0, 0, 0x01]
  }

  function ExampleV6NibbleLabels(): seq<string>
  {
    ["1", "0", "0", "0", "0", "0", "0", "0", "0", "0", "0", "0", "0", "0", "0", "0",
     "0", "0", "0", "0", "0", "0", "0", "0", "8", "b", "d", "0", "1", "0", "0", "2"]
  }

  lemma ExampleV6Nibbles()
    ensures Nibbles(ExampleV6Octets())
         == [2, 0, 0, 1, 0, 13, 11, 8, 0, 0, 0, 0, 0, 0, 0, 0, 0, 0, 0, 0, 0, 0, 0, 0, 0, 0, 0, 0, 0, 0, 0, 1]
  {
    var o := ExampleV6Octets();
    var n := Nibbles(o);
    var e: seq<nat> := [2, 0, 0, 1, 0, 13, 11, 8, 0, 0, 0, 0, 0, 0, 0, 0, 0, 0, 0, 0, 0, 0, 0, 0, 0, 0, 0, 0, 0, 0, 0, 1];
    forall i | 0 <= i < 8 ensures n[i] == e[i] {
    }
    forall i | 8 <= i < 30 ensures n[i] == e[i] {
      assert o[i / 2] == 0;
    }
    forall i | 30 <= i < 32 ensures n[i] == e[i] {
    }
  }

  lemma ExampleV6Reverse(n: seq<nat>)
    requires n == [2, 0, 0, 1, 0, 13, 11, 8, 0, 0, 0, 0, 0, 0, 0, 0, 0, 0, 0, 0, 0, 0, 0, 0, 0, 0, 0, 0, 0, 0, 0, 1]
    ensures Reverse(n) == [1, 0, 0, 0, 0, 0, 0, 0, 0, 0, 0, 0, 0, 0, 0, 0, 0, 0, 0, 0, 0, 0, 0, 0, 8, 11, 13, 0, 1, 0, 0, 2]
  {
  }

  lemma ExampleV6Digits(r: seq<nat>)
    requires r == [1, 0, 0, 0, 0, 0, 0, 0, 0, 0, 0, 0, 0, 0, 0, 0, 0, 0, 0, 0, 0, 0, 0, 0, 8, 11, 13, 0, 1, 0, 0, 2]
    ensures seq(32, i requires 0 <= i < 32 => [HexDigit(r[i])]) == ExampleV6NibbleLabels()
  {
    ExampleV6Split();
    ExampleV6NibbleSplit(r);
    ExampleV6EighthDigits();
    DigitsOfAppend([1, 0, 0, 0, 0, 0, 0, 0], [0, 0, 0, 0, 0, 0, 0, 0], ["1", "0", "0", "0", "0", "0", "0", "0"], ["0", "0", "0", "0", "0", "0", "0", "0"]);
    DigitsOfAppend([1, 0, 0, 0, 0, 0, 0, 0] + [0, 0, 0, 0, 0, 0, 0, 0], [0, 0, 0, 0, 0, 0, 0, 0], ["1", "0", "0", "0", "0", "0", "0", "0"] + ["0", "0", "0", "0", "0", "0", "0", "0"], ["0", "0", "0", "0", "0", "0", "0", "0"]);
    DigitsOfAppend([1, 0, 0, 0, 0, 0, 0, 0] + [0, 0, 0, 0, 0, 0, 0, 0] + [0, 0, 0, 0, 0, 0, 0, 0], [8, 11, 13, 0, 1, 0, 0, 2], ["1", "0", "0", "0", "0", "0", "0", "0"] + ["0", "0", "0", "0", "0", "0", "0", "0"] + ["0", "0", "0", "0", "0", "0", "0", "0"], ["8", "b", "d", "0", "1", "0", "0", "2"]);
    DigitsSeq(r, ExampleV6NibbleLabels());
  }

  lemma ExampleV6NibbleSplit(r: seq<nat>)
    requires r == [1, 0, 0, 0, 0, 0, 0, 0, 0, 0, 0, 0, 0, 0, 0, 0, 0, 0, 0, 0, 0, 0, 0, 0, 8, 11, 13, 0, 1, 0, 0, 2]
    ensures r == [1, 0, 0, 0, 0, 0, 0, 0] + [0, 0, 0, 0, 0, 0, 0, 0] + [0, 0, 0, 0, 0, 0, 0, 0] + [8, 11, 13, 0, 1, 0, 0, 2]
  {
  }

  lemma ExampleV6EighthDigits()
    ensures DigitsOf([1, 0, 0, 0, 0, 0, 0, 0], ["1", "0", "0", "0", "0", "0", "0", "0"])
    ensures DigitsOf([0, 0, 0, 0, 0, 0, 0, 0], ["0", "0", "0", "0", "0", "0", "0", "0"])
    ensures DigitsOf([8, 11, 13, 0, 1, 0, 0, 2], ["8", "b", "d", "0", "1", "0", "0", "2"])
  {
  }

  /** Label i of e is the hex digit of nibble i of r. */
  predicate DigitsOf(r: seq<nat>, e: seq<string>)
  {
    |r| == |e| && forall i | 0 <= i < |r| :: r[i] < 16 && e[i] == [HexDigit(r[i])]
  }

  lemma DigitsOfAppend(r1: seq<nat>, r2: seq<nat>, e1: seq<string>, e2: seq<string>)
    requires DigitsOf(r1, e1) && DigitsOf(r2, e2)
    ensures DigitsOf(r1 + r2, e1 + e2)
  {
    var r, e := r1 + r2, e1 + e2;
    forall i | 0 <= i < |r| ensures r[i] < 16 && e[i] == [HexDigit(r[i])] {
      if i >= |r1| {
        assert r[i] == r2[i - |r1|] && e[i] == e2[i - |r1|];
      }
    }
  }

  lemma DigitsSeq(r: seq<nat>, e: seq<string>)
    requires |r| == 32 && DigitsOf(r, e)
    ensures seq(32, i requires 0 <= i < 32 => [HexDigit(r[i])]) == e
  {
  }


}
