/**
 * An access-point record as the Wi-Fi driver hands it to the scanner, and
 * the two display helpers of esp32-local-area-network-scanner.c:
 * `authmode_to_str` (AuthLabel) and `ssid_or_none` (SsidOrNone), together
 * with the `%02X:...:%02X` rendering of the BSSID.
 */
module ApRecords {
  import opened CTypes
  import opened Printf

  /**
   * The values of `wifi_auth_mode_t` the scanner does not name (WAPI, OWE,
   * ...): the eight it names are numbered 0 to 7.
   */
  type UnlistedCode = c: nat | c >= 8 witness 8

  /**
   * `wifi_auth_mode_t`: the eight modes the scanner names, and every other
   * enumerator of the driver's type, which it does not.
   */
  datatype AuthMode =
    | Open | Wep | WpaPsk | Wpa2Psk | WpaWpa2Psk | Wpa2Enterprise | Wpa3Psk | Wpa2Wpa3Psk
    | Unlisted(code: UnlistedCode)
  {
    predicate Named() { !Unlisted? }
  }

  /** The enumerator's value in `wifi_auth_mode_t`, OPEN = 0 up to WPA2_WPA3_PSK = 7. */
  function AuthCode(m: AuthMode): (v: nat)
    ensures m.Named() <==> v < 8
  {
    match m
    case Open => 0
    case Wep => 1
    case WpaPsk => 2
    case Wpa2Psk => 3
    case WpaWpa2Psk => 4
    case Wpa2Enterprise => 5
    case Wpa3Psk => 6
    case Wpa2Wpa3Psk => 7
    case Unlisted(c) => c
  }

  /** The mode a `wifi_auth_mode_t` value stands for: every value is exactly one mode. */
  function AuthModeOf(v: nat): (m: AuthMode)
    ensures AuthCode(m) == v
  {
    if v == 0 then Open
    else if v == 1 then Wep
    else if v == 2 then WpaPsk
    else if v == 3 then Wpa2Psk
    else if v == 4 then WpaWpa2Psk
    else if v == 5 then Wpa2Enterprise
    else if v == 6 then Wpa3Psk
    else if v == 7 then Wpa2Wpa3Psk
    else Unlisted(v)
  }

  /** No two modes share a value, so AuthModeOf undoes AuthCode. */
  lemma AuthCodeRoundTrip(m: AuthMode)
    ensures AuthModeOf(AuthCode(m)) == m
  {
  }

  /** Over every value of the C enum, the label is "UNK" exactly for the values 8 and up. */
  lemma AuthLabelOfCode(v: nat)
    ensures AuthLabel(AuthModeOf(v)) == "UNK" <==> v >= 8
  {
  }

  /** The 33-byte `ssid` buffer of a record: up to 32 name bytes and a NUL. */
  type SsidBuffer = s: seq<byte> | |s| == 33 witness seq(33, _ => 0)

  /** The 6-byte hardware address `bssid`. */
  type Bssid = s: seq<byte> | |s| == 6 witness [0, 0, 0, 0, 0, 0]

  /** The fields of `wifi_ap_record_t` that the report shows. */
  datatype ApRecord = ApRecord(
    ssid: SsidBuffer,
    rssi: int8,
    primary: byte,
    authmode: AuthMode,
    bssid: Bssid)

  /** What `calloc` leaves in a fresh slot: every byte zero. */
  const ZeroRecord: ApRecord := ApRecord(seq(33, _ => 0), 0, 0, Open, [0, 0, 0, 0, 0, 0])

  // ---------------------------------------------------------------------
  // authmode_to_str
  // ---------------------------------------------------------------------

  /**
   * The short label of an authentication mode. Every label fits the
   * eight-character AUTH column, "UNK" is reserved for the unnamed modes,
   * and the label of a named mode identifies it (ParseAuthLabel reads it back).
   */
  function AuthLabel(m: AuthMode): (r: string)
    ensures 3 <= |r| <= 8
    ensures r == "UNK" <==> m.Unlisted?
    ensures m.Named() ==> ParseAuthLabel(r) == Some(m)
  {
    match m
    case Open => "OPEN"
    case Wep => "WEP"
    case WpaPsk => "WPA"
    case Wpa2Psk => "WPA2"
    case WpaWpa2Psk => "WPA/WPA2"
    case Wpa2Enterprise => "WPA2-E"
    case Wpa3Psk => "WPA3"
    case Wpa2Wpa3Psk => "WPA2/3"
    case Unlisted(_) => "UNK"
  }

  /** Reads a label back to the named mode it stands for; "UNK" and anything else read as None. */
  function ParseAuthLabel(s: string): (r: Option<AuthMode>)
    ensures r.Some? ==> r.value.Named()
  {
    if s == "OPEN" then Some(Open)
    else if s == "WEP" then Some(Wep)
    else if s == "WPA" then Some(WpaPsk)
    else if s == "WPA2" then Some(Wpa2Psk)
    else if s == "WPA/WPA2" then Some(WpaWpa2Psk)
    else if s == "WPA2-E" then Some(Wpa2Enterprise)
    else if s == "WPA3" then Some(Wpa3Psk)
    else if s == "WPA2/3" then Some(Wpa2Wpa3Psk)
    else None
  }

  /** The converse of the round trip in AuthLabel: a label that reads as a mode is that mode's label. */
  lemma ParseAuthLabelSound(s: string)
    requires ParseAuthLabel(s).Some?
    ensures AuthLabel(ParseAuthLabel(s).value) == s
  {
  }

  /** Distinct named modes print distinct labels. */
  lemma AuthLabelInjective(m1: AuthMode, m2: AuthMode)
    requires m1.Named() && m2.Named() && AuthLabel(m1) == AuthLabel(m2)
    ensures m1 == m2
  {
    assert ParseAuthLabel(AuthLabel(m1)) == Some(m1);
    assert ParseAuthLabel(AuthLabel(m2)) == Some(m2);
  }

  // ---------------------------------------------------------------------
  // ssid_or_none
  // ---------------------------------------------------------------------

  /**
   * The C string held in a byte buffer: the bytes before the first NUL, or
   * the whole buffer when it holds none.
   */
  function UntilNul(buf: seq<byte>): (r: seq<byte>)
    ensures r <= buf
    ensures 0 !in r
    ensures |r| < |buf| ==> buf[|r|] == 0
  {
    if buf == [] || buf[0] == 0 then [] else [buf[0]] + UntilNul(buf[1..])
  }

  /** The three properties in UntilNul's contract determine its result. */
  lemma UntilNulUnique(buf: seq<byte>, r: seq<byte>)
    requires r <= buf && 0 !in r && (|r| < |buf| ==> buf[|r|] == 0)
    ensures r == UntilNul(buf)
  {
  }

  /** The character codes of a string. */
  function Codes(s: string): (r: seq<int>)
    ensures |r| == |s|
  {
    if s == [] then [] else [s[0] as int] + Codes(s[1..])
  }

  /** Bytes shown as the characters with the same codes, as `%s` emits them. */
  function ByteChars(bs: seq<byte>): (r: string)
    ensures Codes(r) == bs
  {
    if bs == [] then [] else [bs[0] as char] + ByteChars(bs[1..])
  }

  /**
   * A printable SSID: "NONE" for a hidden network (first byte NUL),
   * otherwise the name bytes up to the first NUL, unchanged and never empty.
   */
  function SsidOrNone(ssid: seq<byte>): (r: string)
    ensures |ssid| == 0 || ssid[0] == 0 ==> r == "NONE"
    ensures |ssid| > 0 && ssid[0] != 0 ==>
      && |r| >= 1
      && Codes(r) == UntilNul(ssid)
  {
    if |ssid| > 0 && ssid[0] != 0 then ByteChars(UntilNul(ssid)) else "NONE"
  }

  /**
   * The text cannot tell a hidden network from one named "NONE": both
   * print as NONE, so the SSID column has no reader that recovers the
   * buffer.
   */
  lemma SsidNamedNoneLooksHidden()
    ensures var named: seq<byte> := [78, 79, 78, 69] + seq(29, _ => 0);
      named[0] != 0 && SsidOrNone(named) == SsidOrNone(seq(33, _ => 0)) == "NONE"
  {
    var named: seq<byte> := [78, 79, 78, 69] + seq(29, _ => 0);
    UntilNulUnique(named, [78, 79, 78, 69]);
    assert ByteChars([78, 79, 78, 69]) == "NONE";
  }

  // ---------------------------------------------------------------------
  // %02X:%02X:%02X:%02X:%02X:%02X of the BSSID
  // ---------------------------------------------------------------------

  /** Bytes as `%02X` pairs joined by ':', first byte first. */
  function HexList(bs: seq<byte>): (r: string)
    requires |bs| >= 1
    ensures |r| == 3 * |bs| - 1
  {
    if |bs| == 1 then Hex2(bs[0]) else Hex2(bs[0]) + ":" + HexList(bs[1..])
  }

  /** Reads upper-case hex pairs separated by ':'; None for anything else. */
  function ParseHexList(s: string): (r: Option<seq<byte>>)
    ensures r.Some? ==> |r.value| >= 1 && |s| == 3 * |r.value| - 1
    decreases |s|
  {
    if |s| < 2 then None
    else
      match ParseHex2(s[..2])
      case None => None
      case Some(b) =>
        if |s| == 2 then Some([b])
        else if s[2] != ':' then None
        else
          match ParseHexList(s[3..])
          case None => None
          case Some(rest) => Some([b] + rest)
  }

  /** Pair k of the list is the hex of byte k, and a ':' follows every pair but the last. */
  lemma {:induction false} HexListLayout(bs: seq<byte>, k: nat)
    requires k < |bs|
    ensures HexList(bs)[3 * k..3 * k + 2] == Hex2(bs[k])
    ensures k + 1 < |bs| ==> HexList(bs)[3 * k + 2] == ':'
  {
    if k > 0 {
      HexListLayout(bs[1..], k - 1);
      var tail := HexList(bs[1..]);
      assert HexList(bs) == (Hex2(bs[0]) + ":") + tail;
      assert HexList(bs)[3 * k..3 * k + 2] == tail[3 * (k - 1)..3 * (k - 1) + 2];
    } else if |bs| > 1 {
      assert HexList(bs) == Hex2(bs[0]) + (":" + HexList(bs[1..]));
    }
  }

  /** Reading back a printed list gives the bytes printed, in order. */
  lemma {:induction false} HexListRoundTrip(bs: seq<byte>)
    requires |bs| >= 1
    ensures ParseHexList(HexList(bs)) == Some(bs)
  {
    var r := HexList(bs);
    if |bs| == 1 {
      assert r[..2] == r;
      assert [bs[0]] == bs;
    } else {
      var tail := HexList(bs[1..]);
      assert r == Hex2(bs[0]) + (":" + tail);
      assert r[..2] == Hex2(bs[0]) && r[2] == ':' && r[3..] == tail;
      HexListRoundTrip(bs[1..]);
      assert [bs[0]] + bs[1..] == bs;
    }
  }

  /** The converse: every text ParseHexList accepts is what HexList prints for its result. */
  lemma {:induction false} HexListCanonical(s: string)
    requires ParseHexList(s).Some?
    ensures HexList(ParseHexList(s).value) == s
    decreases |s|
  {
    var bs := ParseHexList(s).value;
    var b := ParseHex2(s[..2]).value;
    ParseHex2Canonical(s[..2]);
    if |s| == 2 {
      assert bs == [b];
      assert s[..2] == s;
    } else {
      var rest := ParseHexList(s[3..]).value;
      assert bs == [b] + rest;
      HexListCanonical(s[3..]);
      assert bs[1..] == rest;
      assert HexList(bs) == Hex2(b) + ":" + HexList(rest);
      assert s == s[..2] + ":" + s[3..];
    }
  }

  /**
   * `%02X:%02X:%02X:%02X:%02X:%02X` of the address: six upper-case hex
   * pairs joined by ':', b[0] first, 17 characters in all (BssidLayout).
   */
  function FormatBssid(b: Bssid): (r: string)
    ensures |r| == 17
  {
    HexList(b)
  }

  /** Every third character of a printed BSSID is ':', the others upper-case hex digits. */
  lemma BssidLayout(b: Bssid)
    ensures forall k :: 0 <= k < 17 ==> (if k % 3 == 2 then FormatBssid(b)[k] == ':' else IsUpperHex(FormatBssid(b)[k]))
  {
    var r := FormatBssid(b);
    forall k | 0 <= k < 17
      ensures if k % 3 == 2 then r[k] == ':' else IsUpperHex(r[k])
    {
      var q := k / 3;
      HexListLayout(b, q);
      if k % 3 != 2 {
        var p := r[3 * q..3 * q + 2];
        assert r[k] == p[k - 3 * q];
      }
    }
  }

  /** Reads a BSSID text: six upper-case hex pairs separated by ':'. */
  function ParseBssid(s: string): (r: Option<Bssid>)
    ensures r.Some? ==> |s| == 17
  {
    match ParseHexList(s)
    case Some(bs) => if |bs| == 6 then Some(bs) else None
    case None => None
  }

  /** Reading back a printed BSSID gives the six bytes printed, in order. */
  lemma BssidRoundTrip(b: Bssid)
    ensures ParseBssid(FormatBssid(b)) == Some(b)
  {
    HexListRoundTrip(b);
  }

  /** The converse: every text ParseBssid accepts is exactly what FormatBssid prints for its result. */
  lemma BssidCanonical(s: string)
    requires ParseBssid(s).Some?
    ensures FormatBssid(ParseBssid(s).value) == s
  {
    HexListCanonical(s);
  }
}
