/** The attributes of a gadget in ConfigFS, and the values a projection gives them. */
module ConfigFs {
  import opened Bytes
  import opened Unicode
  import opened Personality
  import opened MicrosoftProjection
  import opened Translator
  import opened Numerals

  datatype Attribute =
    MaxSpeed | IdVendor | IdProduct | BcdUsb | BcdDevice | DeviceClass | DeviceSubClass | DeviceProtocol
  | Manufacturer | Product | SerialNumber
  | MaxPower | ConfigAttributes
  | OsVendorCode | OsSignature | OsUse
  | WebUsbVersion | WebUsbVendorCode | WebUsbLandingPage | WebUsbUse

  type Settings = map<Attribute, Text>

  datatype Assignment = Assignment(attribute: Attribute, text: Text)

  /** The settings after some attributes have been written, in order. */
  function Written(settings: Settings, writes: seq<Assignment>): Settings {
    if |writes| == 0 then settings
    else
      var last := writes[|writes| - 1];
      Written(settings, writes[..|writes| - 1])[last.attribute := last.text]
  }

  // What is written, step by step.

  function SpeedName(speed: UsbSpeed): Text {
    match speed
    case LowSpeed => Ascii("low-speed")
    case FullSpeed => Ascii("full-speed")
    case HighSpeed => Ascii("high-speed")
  }

  function IdentityWrites(p: Projection): seq<Assignment> {
    [Assignment(MaxSpeed, SpeedName(p.maxSpeed)),
     Assignment(IdVendor, Hex(p.device.vendorId, 4)),
     Assignment(IdProduct, Hex(p.device.productId, 4)),
     Assignment(BcdUsb, Hex(p.device.bcdUsb, 4)),
     Assignment(BcdDevice, Hex(p.device.bcdDevice, 4)),
     Assignment(DeviceClass, Hex(p.device.deviceClass, 2)),
     Assignment(DeviceSubClass, Hex(p.device.deviceSubclass, 2)),
     Assignment(DeviceProtocol, Hex(p.device.deviceProtocol, 2))]
  }

  function Optionally(attribute: Attribute, text: Option<Text>): seq<Assignment> {
    if text.Some? then [Assignment(attribute, text.value)] else []
  }

  function StringWrites(p: Projection): seq<Assignment> {
    Optionally(Manufacturer, p.device.manufacturer)
    + Optionally(Product, p.device.product)
    + Optionally(SerialNumber, p.device.serial)
  }

  function ConfigWrites(p: Projection): seq<Assignment> {
    [Assignment(MaxPower, Decimal(p.maxPowerMa)), Assignment(ConfigAttributes, Hex(p.configurationAttributes, 2))]
  }

  function MicrosoftWrites(m: Microsoft): seq<Assignment> {
    [Assignment(OsVendorCode, Hex(m.vendorCode, 2)), Assignment(OsSignature, m.signature),
     Assignment(OsUse, Ascii("1"))]
  }

  function WebUsbWrites(w: WebUsb): seq<Assignment> {
    [Assignment(WebUsbVersion, Hex(w.version, 4)), Assignment(WebUsbVendorCode, Hex(w.vendorCode, 2))]
    + Optionally(WebUsbLandingPage, if |w.landingPage| == 0 then None else Some(w.landingPage))
    + [Assignment(WebUsbUse, Ascii("1"))]
  }

  /** The settings before the optional capabilities. */
  function Basic(p: Projection): Settings {
    Written(Written(Written(map[], IdentityWrites(p)), StringWrites(p)), ConfigWrites(p))
  }

  /** The settings of a gadget that has just been populated. */
  function SettingsOf(p: Projection): Settings {
    var basic := Basic(p);
    var microsoft := if p.microsoftOs1.Some? then Written(basic, MicrosoftWrites(p.microsoftOs1.value)) else basic;
    if p.webUsb.Some? then Written(microsoft, WebUsbWrites(p.webUsb.value)) else microsoft
  }

  // What they mean.

  datatype Value = Speed(speed: UsbSpeed) | Number(number: nat) | Words(text: Text)

  const IDENTITY: set<Attribute> :=
    {MaxSpeed, IdVendor, IdProduct, BcdUsb, BcdDevice, DeviceClass, DeviceSubClass, DeviceProtocol}

  const STRINGS: set<Attribute> := {Manufacturer, Product, SerialNumber}

  const CONFIG: set<Attribute> := {MaxPower, ConfigAttributes}

  const MICROSOFT: set<Attribute> := {OsVendorCode, OsSignature, OsUse}

  const WEBUSB: set<Attribute> := {WebUsbVersion, WebUsbVendorCode, WebUsbLandingPage, WebUsbUse}

  function ReadSpeed(t: Text): Option<Value> {
    if t == Ascii("low-speed") then Some(Speed(LowSpeed))
    else if t == Ascii("full-speed") then Some(Speed(FullSpeed))
    else if t == Ascii("high-speed") then Some(Speed(HighSpeed))
    else None
  }

  /** How many characters a number is written with: "0x" and four or two digits; any number of decimal ones. */
  function Form(a: Attribute): Option<nat> {
    if a in {IdVendor, IdProduct, BcdUsb, BcdDevice, WebUsbVersion} then Some(6)
    else if a in {DeviceClass, DeviceSubClass, DeviceProtocol, ConfigAttributes, OsVendorCode, WebUsbVendorCode}
    then Some(4)
    else None
  }

  /** What the text of an attribute stands for. */
  function Interpret(a: Attribute, t: Text): Option<Value> {
    if a == MaxSpeed then ReadSpeed(t)
    else if a in STRINGS || a == OsSignature || a == WebUsbLandingPage then Some(Words(t))
    else
      var n := ReadNumber(t);
      if n.Some? && (Form(a).Some? ==> |t| == Form(a).value) then Some(Number(n.value)) else None
  }

  /** An attribute that has been given a text shows what that text stands for; another one shows nothing. */
  predicate Shows(settings: Settings, a: Attribute, value: Option<Value>) {
    if a in settings then value.Some? && Interpret(a, settings[a]) == value else value.None?
  }

  function TextValue(text: Option<Text>): Option<Value> {
    if text.Some? then Some(Words(text.value)) else None
  }

  /** What the host is to see of an attribute. */
  function Presented(p: Projection, a: Attribute): Option<Value> {
    match a
    case MaxSpeed => Some(Speed(p.maxSpeed))
    case IdVendor => Some(Number(p.device.vendorId))
    case IdProduct => Some(Number(p.device.productId))
    case BcdUsb => Some(Number(p.device.bcdUsb))
    case BcdDevice => Some(Number(p.device.bcdDevice))
    case DeviceClass => Some(Number(p.device.deviceClass))
    case DeviceSubClass => Some(Number(p.device.deviceSubclass))
    case DeviceProtocol => Some(Number(p.device.deviceProtocol))
    case Manufacturer => TextValue(p.device.manufacturer)
    case Product => TextValue(p.device.product)
    case SerialNumber => TextValue(p.device.serial)
    case MaxPower => Some(Number(p.maxPowerMa))
    case ConfigAttributes => Some(Number(p.configurationAttributes))
    case _ => if a in MICROSOFT then PresentedMicrosoft(p.microsoftOs1, a) else PresentedWebUsb(p.webUsb, a)
  }

  function PresentedMicrosoft(m: Option<Microsoft>, a: Attribute): Option<Value> {
    if m.None? then None
    else match a
      case OsVendorCode => Some(Number(m.value.vendorCode))
      case OsSignature => Some(Words(m.value.signature))
      case _ => Some(Number(1))
  }

  function PresentedWebUsb(w: Option<WebUsb>, a: Attribute): Option<Value> {
    if w.None? then None
    else match a
      case WebUsbVersion => Some(Number(w.value.version))
      case WebUsbVendorCode => Some(Number(w.value.vendorCode))
      case WebUsbLandingPage => if |w.value.landingPage| == 0 then None else Some(Words(w.value.landingPage))
      case _ => Some(Number(1))
  }

  // Attributes not written keep what they show.
  lemma {:induction false} Untouched(settings: Settings, writes: seq<Assignment>, a: Attribute, value: Option<Value>)
    requires forall i :: 0 <= i < |writes| ==> writes[i].attribute != a
    ensures Shows(Written(settings, writes), a, value) <==> Shows(settings, a, value)
  {
    hide Interpret;
    if |writes| > 0 {
      Untouched(settings, writes[..|writes| - 1], a, value);
    }
  }

  // An attribute written once shows what was written.
  lemma {:induction false} WrittenOnce(settings: Settings, writes: seq<Assignment>, i: nat, value: Value)
    requires i < |writes| && forall j :: i < j < |writes| ==> writes[j].attribute != writes[i].attribute
    requires Interpret(writes[i].attribute, writes[i].text) == Some(value)
    ensures Shows(Written(settings, writes), writes[i].attribute, Some(value))
  {
    hide Interpret;
    if i < |writes| - 1 {
      WrittenOnce(settings, writes[..|writes| - 1], i, value);
    }
  }

  function Place(a: Attribute): nat
    requires a in IDENTITY
  {
    match a
    case MaxSpeed => 0
    case IdVendor => 1
    case IdProduct => 2
    case BcdUsb => 3
    case BcdDevice => 4
    case DeviceClass => 5
    case DeviceSubClass => 6
    case DeviceProtocol => 7
  }

  lemma NumbersRead()
    ensures forall n: nat, width: nat :: ReadNumber(Hex(n, width)) == Some(n)
    ensures forall n: nat :: ReadNumber(Decimal(n)) == Some(n)
    ensures ReadNumber(Ascii("1")) == Some(1)
    ensures forall n: nat :: n < 0x1_0000 ==> |Hex(n, 4)| == 6
    ensures forall n: nat :: n < 0x100 ==> |Hex(n, 2)| == 4
  {
    hide ReadNumber, Hex, Decimal;
    forall n: nat | n < 0x1_0000 ensures |Hex(n, 4)| == 6 {
      HexWidths(n);
    }
    forall n: nat | n < 0x100 ensures |Hex(n, 2)| == 4 {
      HexWidths(n);
    }
    forall n: nat, width: nat ensures ReadNumber(Hex(n, width)) == Some(n) {
      HexReads(n, width);
    }
    forall n: nat ensures ReadNumber(Decimal(n)) == Some(n) {
      DecimalReads(n);
    }
    OneReads();
  }

  lemma OneReads()
    ensures ReadNumber(Ascii("1")) == Some(1)
  {
    assert Ascii("1")[..0] == [];
  }

  lemma SpeedReads(speed: UsbSpeed)
    ensures ReadSpeed(SpeedName(speed)) == Some(Speed(speed))
  {
    assert Ascii("low-speed")[0] != Ascii("full-speed")[0] && Ascii("high-speed")[0] != Ascii("full-speed")[0];
    assert Ascii("low-speed")[0] != Ascii("high-speed")[0];
  }

  lemma IdentityShown(p: Projection, a: Attribute)
    requires a in IDENTITY
    ensures Shows(Written(map[], IdentityWrites(p)), a, Presented(p, a))
  {
    hide Written, Hex, ReadNumber, SpeedName, ReadSpeed, Shows;
    var writes := IdentityWrites(p);
    NumbersRead();
    SpeedReads(p.maxSpeed);
    assert writes[Place(a)].attribute == a && forall j :: Place(a) < j < 8 ==> writes[j].attribute != a;
    WrittenOnce(map[], writes, Place(a), Presented(p, a).value);
  }

  lemma StringShown(settings: Settings, p: Projection, a: Attribute)
    requires a in STRINGS && Shows(settings, a, None)
    ensures Shows(Written(settings, StringWrites(p)), a, Presented(p, a))
  {
    hide Written, Shows;
    var writes := StringWrites(p);
    var m, n := |Optionally(Manufacturer, p.device.manufacturer)|, |Optionally(Product, p.device.product)|;
    var i := if a == Manufacturer then 0 else if a == Product then m else m + n;
    if Presented(p, a).Some? {
      assert writes[i] == Assignment(a, Presented(p, a).value.text);
      assert forall j :: i < j < |writes| ==> writes[j].attribute != a;
      WrittenOnce(settings, writes, i, Presented(p, a).value);
    } else {
      Untouched(settings, writes, a, None);
    }
  }

  lemma ConfigShown(settings: Settings, p: Projection, a: Attribute)
    requires a in CONFIG
    ensures Shows(Written(settings, ConfigWrites(p)), a, Presented(p, a))
  {
    hide Written, Hex, Decimal, ReadNumber, Shows;
    NumbersRead();
    WrittenOnce(settings, ConfigWrites(p), if a == MaxPower then 0 else 1, Presented(p, a).value);
  }

  lemma MicrosoftShown(settings: Settings, m: Microsoft, a: Attribute)
    requires a in MICROSOFT
    ensures Shows(Written(settings, MicrosoftWrites(m)), a, PresentedMicrosoft(Some(m), a))
  {
    hide Written, Hex, ReadNumber, Shows;
    NumbersRead();
    var i := if a == OsVendorCode then 0 else if a == OsSignature then 1 else 2;
    WrittenOnce(settings, MicrosoftWrites(m), i, PresentedMicrosoft(Some(m), a).value);
  }

  lemma WebUsbShown(settings: Settings, w: WebUsb, a: Attribute)
    requires a in WEBUSB && Shows(settings, a, None)
    ensures Shows(Written(settings, WebUsbWrites(w)), a, PresentedWebUsb(Some(w), a))
  {
    hide Written, Hex, ReadNumber, Shows;
    NumbersRead();
    var writes, value := WebUsbWrites(w), PresentedWebUsb(Some(w), a);
    var i := match a case WebUsbVersion => 0 case WebUsbVendorCode => 1 case WebUsbLandingPage => 2
                     case _ => |writes| - 1;
    if value.Some? {
      assert writes[i].attribute == a && forall j :: i < j < |writes| ==> writes[j].attribute != a;
      WrittenOnce(settings, writes, i, value.value);
    } else {
      Untouched(settings, writes, a, None);
    }
  }

  // The settings before the optional capabilities.
  lemma BasicShown(p: Projection, a: Attribute)
    ensures Shows(Basic(p), a, if a in MICROSOFT + WEBUSB then None else Presented(p, a))
  {
    hide Written, Interpret, Presented, Shows, IdentityWrites, StringWrites, ConfigWrites;
    var identity := Written(map[], IdentityWrites(p));
    var strings := Written(identity, StringWrites(p));
    var value := if a in MICROSOFT + WEBUSB then None else Presented(p, a);
    NothingShown(a);
    IdentityWithin(p);
    StringsWithin(p);
    if a in IDENTITY {
      IdentityShown(p, a);
      Untouched(identity, StringWrites(p), a, value);
    } else {
      Untouched(map[], IdentityWrites(p), a, None);
      if a in STRINGS {
        StringShown(identity, p, a);
      } else {
        Untouched(identity, StringWrites(p), a, None);
      }
    }
    if a in CONFIG {
      ConfigShown(strings, p, a);
    } else {
      Untouched(strings, ConfigWrites(p), a, value);
    }
  }

  lemma NothingShown(a: Attribute)
    ensures Shows(map[], a, None)
  {
  }

  // Each step writes attributes of its own kind.
  predicate Within(writes: seq<Assignment>, kind: set<Attribute>) {
    forall i :: 0 <= i < |writes| ==> writes[i].attribute in kind
  }

  lemma IdentityWithin(p: Projection)
    ensures Within(IdentityWrites(p), IDENTITY)
  {
    hide Hex, SpeedName;
  }

  lemma StringsWithin(p: Projection)
    ensures Within(StringWrites(p), STRINGS) && Within(ConfigWrites(p), CONFIG)
  {
    hide Hex, Decimal;
  }

  lemma MicrosoftWithin(m: Microsoft)
    ensures Within(MicrosoftWrites(m), MICROSOFT)
  {
    hide Hex;
  }

  lemma WebUsbWithin(w: WebUsb)
    ensures Within(WebUsbWrites(w), WEBUSB)
  {
    hide Hex;
  }

  /**
   A populated gadget presents the projection: read back, every attribute stands for the projection's value, and
   nothing is set that the projection does not have.
   */
  lemma SettingsPresent(p: Projection, a: Attribute)
    ensures Shows(SettingsOf(p), a, Presented(p, a))
  {
    hide Written, Interpret, Shows, Basic, MicrosoftWrites, WebUsbWrites;
    var basic := Basic(p);
    var before := if p.microsoftOs1.Some? then Written(basic, MicrosoftWrites(p.microsoftOs1.value)) else basic;
    var value := if a in WEBUSB then None else Presented(p, a);
    BasicShown(p, a);
    if p.microsoftOs1.Some? {
      MicrosoftWithin(p.microsoftOs1.value);
      if a in MICROSOFT {
        MicrosoftShown(basic, p.microsoftOs1.value, a);
      } else {
        Untouched(basic, MicrosoftWrites(p.microsoftOs1.value), a, value);
      }
    }
    assert Shows(before, a, value);
    if p.webUsb.Some? {
      WebUsbWithin(p.webUsb.value);
      if a in WEBUSB {
        WebUsbShown(before, p.webUsb.value, a);
      } else {
        Untouched(before, WebUsbWrites(p.webUsb.value), a, value);
      }
    }
  }

  /** The same device as far as its gadget goes. */
  predicate Alike(p: Projection, q: Projection) {
    && p.device == q.device && p.maxSpeed == q.maxSpeed && p.maxPowerMa == q.maxPowerMa
    && p.configurationAttributes == q.configurationAttributes
    && p.microsoftOs1 == q.microsoftOs1 && p.webUsb == q.webUsb
  }

  /** Gadgets have the same settings exactly when they are to present the same device: the text forms lose nothing. */
  lemma SettingsDetermine(p: Projection, q: Projection)
    ensures SettingsOf(p) == SettingsOf(q) <==> Alike(p, q)
  {
    hide SettingsOf, Interpret, Presented;
    if SettingsOf(p) == SettingsOf(q) {
      forall a: Attribute ensures Presented(p, a) == Presented(q, a) {
        SettingsPresent(p, a);
        SettingsPresent(q, a);
      }
      SamePresented(p, q);
    }
    if Alike(p, q) {
      SameSettings(p, q);
    }
  }

  lemma SameSettings(p: Projection, q: Projection)
    requires Alike(p, q)
    ensures SettingsOf(p) == SettingsOf(q)
  {
  }

  lemma SamePresented(p: Projection, q: Projection)
    requires forall a: Attribute :: Presented(p, a) == Presented(q, a)
    ensures Alike(p, q)
  {
    SameDevice(p, q);
    assert Presented(p, OsVendorCode) == Presented(q, OsVendorCode);
    assert Presented(p, OsSignature) == Presented(q, OsSignature);
    assert Presented(p, WebUsbVersion) == Presented(q, WebUsbVersion);
    assert Presented(p, WebUsbVendorCode) == Presented(q, WebUsbVendorCode);
    assert Presented(p, WebUsbLandingPage) == Presented(q, WebUsbLandingPage);
    assert Presented(p, MaxSpeed) == Presented(q, MaxSpeed);
    assert Presented(p, MaxPower) == Presented(q, MaxPower);
    assert Presented(p, ConfigAttributes) == Presented(q, ConfigAttributes);
  }

  lemma SameDevice(p: Projection, q: Projection)
    requires forall a: Attribute :: Presented(p, a) == Presented(q, a)
    ensures p.device == q.device
  {
    assert Presented(p, IdVendor) == Presented(q, IdVendor) && Presented(p, IdProduct) == Presented(q, IdProduct);
    assert Presented(p, BcdUsb) == Presented(q, BcdUsb) && Presented(p, BcdDevice) == Presented(q, BcdDevice);
    assert Presented(p, DeviceClass) == Presented(q, DeviceClass);
    assert Presented(p, DeviceSubClass) == Presented(q, DeviceSubClass);
    assert Presented(p, DeviceProtocol) == Presented(q, DeviceProtocol);
    assert Presented(p, Manufacturer) == Presented(q, Manufacturer) && Presented(p, Product) == Presented(q, Product);
    assert Presented(p, SerialNumber) == Presented(q, SerialNumber);
  }
}
