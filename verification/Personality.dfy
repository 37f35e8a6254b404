/** The typed USB personality a worker publishes. */
module Personality {
  import opened Bytes
  import opened Unicode

  const SCHEMA: u16 := 1

  datatype UsbSpeed = LowSpeed | FullSpeed | HighSpeed

  datatype StringDescriptor = StringDescriptor(index: byte, languageId: u16, descriptor: seq<byte>)

  datatype CompatibleId = CompatibleId(interface: byte, compatibleId: Text, subCompatibleId: Text)

  datatype RegistryProperty = RegistryProperty(interface: byte, dataType: u32, name: Text, data: seq<byte>)

  datatype MicrosoftOs10 = MicrosoftOs10(
    vendorCode: byte,
    compatibleIds: seq<CompatibleId>,
    registryProperties: seq<RegistryProperty>)

  datatype WebUsb = WebUsb(version: u16, vendorCode: byte, landingPage: Text)

  datatype UsbPersonality = UsbPersonality(
    schema: u16,
    maxSpeed: UsbSpeed,
    deviceDescriptor: seq<byte>,
    configurationDescriptor: seq<byte>,
    strings: seq<StringDescriptor>,
    microsoftOs1: Option<MicrosoftOs10>,
    webUsb: Option<WebUsb>)
}
