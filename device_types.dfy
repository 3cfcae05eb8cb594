/**
 * The device-model names shown for discovered devices, and how a device descriptor's text
 * fields become the parameters of a device link.
 */
module DeviceTypes {
  import opened Results
  import opened PyInt
  import opened Bytes

  const NotSupported := "Not Supported"

  /**
   * `getDeviceName(deviceType)`: the name its dictionary display gives the code (the display
   * has no repeated key, so entry order does not matter), "Not Supported" for any other code.
   */
  function DeviceName(deviceType: int): (name: string)
    ensures |name| > 0
  {
    match deviceType
    case 0x2711 => "SP2"
    case 0x2719 => "Honeywell SP2"
    case 0x7919 => "Honeywell SP2"
    case 0x271a => "Honeywell SP2"
    case 0x791a => "Honeywell SP2"
    case 0x2720 => "SPMini"
    case 0x753e => "SP3"
    case 0x7D00 => "OEM branded SP3"
    case 0x947a => "SP3S"
    case 0x9479 => "SP3S"
    case 0x2728 => "SPMini2"
    case 0x2733 => "OEM branded SPMini"
    case 0x273e => "OEM branded SPMini"
    case 0x7530 => "OEM branded SPMini2"
    case 0x7546 => "OEM branded SPMini2"
    case 0x7918 => "OEM branded SPMini2"
    case 0x7D0D => "TMall OEM SPMini3"
    case 0x2736 => "SPMiniPlus"
    case 0x2712 => "RM2"
    case 0x2737 => "RM Mini"
    case 0x273d => "RM Pro Phicomm"
    case 0x2783 => "RM2 Home Plus"
    case 0x277c => "RM2 Home Plus GDT"
    case 0x272a => "RM2 Pro Plus"
    case 0x2787 => "RM2 Pro Plus2"
    case 0x279d => "RM2 Pro Plus3"
    case 0x27a9 => "RM2 Pro Plus_300"
    case 0x278b => "RM2 Pro Plus BL"
    case 0x2797 => "RM2 Pro Plus HYC"
    case 0x27a1 => "RM2 Pro Plus R1"
    case 0x27a6 => "RM2 Pro PP"
    case 0x278f => "RM Mini Shate"
    case 0x27c2 => "RM Mini 3"
    case 0x2714 => "A1"
    case 0x4EB5 => "MP1"
    case 0x4EF7 => "Honyar oem mp1"
    case 0x4EAD => "Hysen controller"
    case 0x2722 => "S1 (SmartOne Alarm Kit)"
    case 0x4E4D => "Dooya DT360E (DOOYA_CURTAIN_V2)"
    case 0x51da => "RM4 Mini"
    case 0x5f36 => "RM Mini 3"
    case 0x6026 => "RM4 Pro"
    case 0x6070 => "RM4c Mini"
    case 0x61a2 => "RM4 Pro"
    case 0x610e => "RM4 Mini"
    case 0x610f => "RM4c"
    case 0x62bc => "RM4 Mini"
    case 0x62be => "RM4c Mini"
    case 0x51E3 => "BG Electrical Smart Power Socket"
    case 0x60c8 => "RGB Smart Bulb"
    case 0x6539 => "RM4c Mini"
    case 0x653a => "RM4 Mini"
    case 0x653c => "RM4 Pro"
    case 0x649b => "RM4 Pro"
    case 0x6184 => "RM4C mini"
    case 0x648d => "RM4 Mini"
    case 0x5209 => "RM4 TV Mate"
    case 0x27C3 => "RM pro+"
    case 0x27C7 => "RM mini 3"
    case 0x27CC => "RM mini 3"
    case 0x27D0 => "RM mini 3"
    case 0x27D3 => "RM mini 3"
    case 0x27DC => "RM mini 3"
    case 0x6507 => "RM mini 3"
    case 0x6508 => "RM mini 3"
    case _ => NotSupported
  }


  /** The type string `initDevice` rewrites before parsing: exactly "0x6539" becomes "0x610F". */
  function CanonicalType(dtype: string): string {
    if dtype == "0x6539" then "0x610F" else dtype
  }

  /** The type code `initDevice` gives the device link: `int(dtype, 0)` after the rewrite. */
  function ResolveType(dtype: string): Result<int, ValueError> {
    IntBase0(CanonicalType(dtype))
  }

  /** What `broadlink.gendevice` is handed: the type code, `(host, 80)` and the MAC bytes. */
  datatype LinkParams = LinkParams(devType: int, host: string, port: nat, mac: seq<byte>)

  /** A descriptor field `initDevice` cannot convert (each a ValueError in the source). */
  datatype InitError = BadType(typeError: ValueError) | BadMac(macError: HexError)

  /**
   * `initDevice(dtype, host, mac)` up to the foreign call `broadlink.gendevice`: it succeeds
   * exactly when both the type and the MAC convert, and then links to `host` on port 80.
   */
  function InitDevice(dtype: string, host: string, mac: string): (r: Result<LinkParams, InitError>)
    ensures r.Ok? <==> ResolveType(dtype).Ok? && FromHex(mac).Ok?
    ensures r.Ok? ==>
      r.value.devType == ResolveType(dtype).value && r.value.host == host
      && r.value.port == 80 && r.value.mac == FromHex(mac).value
    ensures ResolveType(dtype).Ok? && FromHex(mac).Err? ==> r == Err(BadMac(FromHex(mac).error))
  {
    match ResolveType(dtype)
    case Err(e) => Err(BadType(e))
    case Ok(t) =>
      match FromHex(mac)
      case Err(e) => Err(BadMac(e))
      case Ok(m) => Ok(LinkParams(t, host, 80, m))
  }

  /** The type code a model code ends up with: the alias applies to 0x6539 alone. */
  function Aliased(code: nat): nat {
    if code == 0x6539 then 0x610F else code
  }

  /** The alias itself: "0x6539" becomes the code 0x610F, and the target text "0x610F" itself parses to 0x610F. */
  lemma AliasedType()
    ensures ResolveType("0x6539") == Ok(0x610F)
    ensures IntBase0("0x610F") == Ok(0x610F)
  {
    var s := "0x610F";
    StripNoSpace(s);
    assert SplitSign(s) == (false, s);
    assert s[2..] == "610F";
    assert PrefixedBase(s) == (16, "610F");
    assert IsDigitRun("610F", 16);
    assert "610F"[..3] == "610" && "610"[..2] == "61" && "61"[..1] == "6" && "6"[..0] == "";
    assert RunValue("610F", 16) == 0x610F;
  }

  /**
   * Only the exact string is rewritten: "0X6539" (another spelling of the same number) keeps
   * type 0x6539.
   */
  lemma AliasIsTextual()
    ensures ResolveType("0X6539") == Ok(0x6539)
    ensures ResolveType("0x6539") != ResolveType("0X6539")
  {
    AliasedType();
    var s := "0X6539";
    StripNoSpace(s);
    assert SplitSign(s) == (false, s);
    assert s[2..] == "6539";
    assert PrefixedBase(s) == (16, "6539");
    ValueOf6539();
  }

  /** "6539" read as base-16 digits, and the hex text of that value. */
  lemma ValueOf6539()
    ensures IsDigitRun("6539", 16) && RunValue("6539", 16) == 0x6539
    ensures Hex(0x6539) == "0x6539"
  {
    assert "6539"[..3] == "653" && "653"[..2] == "65" && "65"[..1] == "6" && "6"[..0] == "";
    assert Digits(6, 16) == "6";
    assert Digits(0x65, 16) == "65";
    assert Digits(0x653, 16) == "653";
    assert Digits(0x6539, 16) == "6539";
  }

  /** The type text a discovered device is listed with, `hex(devtype)`, resolves to its code, aliased. */
  lemma ResolveHex(code: nat)
    ensures ResolveType(Hex(code)) == Ok(Aliased(code))
  {
    IntOfHex(code);
    ValueOf6539();
    IntOfHex(0x6539);
    AliasedType();
  }

  /**
   * A device descriptor as discovery writes it (type `hex(devtype)`, MAC as two lower-case
   * hex digits per byte) initialises a link with the aliased type on port 80 and the same MAC.
   */
  lemma InitDiscovered(code: nat, host: string, mac: seq<byte>)
    ensures InitDevice(Hex(code), host, ToHex(mac)) == Ok(LinkParams(Aliased(code), host, 80, mac))
  {
    ResolveHex(code);
    FromHexToHex(mac);
  }

  /** A type field that is no integer literal for `int(x, 0)` fails the initialisation. */
  lemma InitBadType(dtype: string, host: string, mac: string)
    requires ResolveType(dtype).Err?
    ensures InitDevice(dtype, host, mac) == Err(BadType(ResolveType(dtype).error))
  {
  }

  /**
   * Listed codes give their table names, and codes outside the range of listed codes
   * (0x2711 to 0x947a) give "Not Supported".
   */
  lemma DeviceNames(code: int)
    ensures DeviceName(0x2737) == "RM Mini"
    ensures DeviceName(0x6539) == "RM4c Mini"
    ensures DeviceName(0x610F) == "RM4c"
    ensures code < 0x2711 ==> DeviceName(code) == NotSupported
    ensures code > 0x947a ==> DeviceName(code) == NotSupported
  {
  }
}
