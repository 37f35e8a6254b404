# Verified model of the USB gadget supervisor

The supervisor runs one unprivileged worker, compiles the USB personality that the worker publishes into Linux
FunctionFS and ConfigFS state, and lends the worker its endpoint files. This project models two parts of it in Dafny and
proves what they promise.

**The descriptor compiler and its validator.** `project` (`src/usb_personality.rs`) turns USB descriptors into a FunctionFS
v2 descriptor blob, a string blob and an endpoint list; `inspect` (`src/functionfs.rs`) is a second parser of the same
blobs. The model works on bytes: length-prefixed records (USB 2.0 sections 9.5 and 9.6), UTF-16 (RFC 2781 sections 2.1
and 2.2), UTF-8 (RFC 3629 section 3) and the Microsoft OS 1.0 feature descriptors. It is fed by firmware discovery and by
the native builder, which are modelled too.

**The life of a USB generation.** `Runtime` (`src/runtime.rs`) is a class with the source's fields, acting on a `World`:
the gadget's ConfigFS tree, the FunctionFS mount, the UDC binding, a clock, the worker process and its control channel.
Any call may fail at any point, and the worker sends arbitrary records. Every call that has an effect is an
event, `Allowed` says which event may come next, and a call of the supervisor verifies only if its event is allowed; so
every run is `Safe`, and `History` draws from `Safe` the statements that relate events far apart. `EndpointLifecycle` is
the worker-side condition variable as an interleaving of threads.

How the modules fit together:

- `Bytes`, `Unicode`, `Records`, `Sorting`: integers and outcomes, text codecs, record framing, a sort.
- `Personality`, `Configuration`, `Renumbering`, `StringTables`, `StringProjection`, `Layouts`, `MicrosoftProjection`,
  `Translator`: the compiler. Each method with a loop or an in-place edit is proved equal to a function, and the lemmas
  are about that function.
- `OsDescriptors`, `FunctionFs`: the validator. `MicrosoftAgreement`, `Agreement`, `Bundles`: the compiler against the
  validator. `Acceptance`, `Emission`: what is accepted and emitted, told by the bytes.
- `Replies`, `Discovery`, `StringClosure`, `MicrosoftSurvival`, `MicrosoftEmission`, `WebUsbMeaning`: discovery, and what
  it leaves for the compiler. `Transcripts`: discovery as a device sees it.
- `NativeBuilder`, `NativeRecovery`, `NativeDiscovery`: the native builder against the compiler.
- `Panics`, `Witnesses`: when the compiler and discovery panic, and inputs on which the code does less than expected.
- `Protocol`, `Activations`: channel records and bus events.
- `Numerals`, `ConfigFs`, `Kernel`, `Supervisor`, `History`, `EndpointLifecycle`: runs.

## What the code does not promise

Some plausible statements are false of the code. The model keeps the code as it is and proves when they hold.

- `discover_bundle` accepting a personality does not mean that `inspect` accepts its blobs (`Bundles.AcceptedThenRefused`).
  `inspect` runs after the old generation is gone, so the promise that an invalid replacement leaves the serving
  generation undisturbed (`README.md:83-84`) covers exactly what `discover_bundle` rejects: a personality that only
  `inspect` refuses always fails the run, and once it has a number the old generation is gone
  (`Supervisor.Runtime.Configure`). The exact condition for `inspect` is `Agreement.ProjectionInspected`.
- Reading a string panics exactly on a descriptor whose length byte is zero (`StringProjection.StringPanicsExactly`), so
  `discover_bundle` can panic (`Bundles.HollowStringPanics`). It panics exactly when such a descriptor is the first
  unreadable device string, or follows only placeable interface strings (`Panics.DiscoverBundlePanicsExactly`).
- Discovery panics (`Witnesses.ShortUrlPanics`), and does so exactly when it gets as far as asking for a WebUSB URL and the
  answer is of a known scheme with a length byte below three (`Panics.DiscoveryPanicsExactly`).
- `inspect_descriptors` panics on sixteen bytes (`Witnesses.LoneOsDescriptorsPanic`), exactly when Microsoft OS descriptors
  come without a speed set (`FunctionFs.InspectDescriptors`), which no projection does.
- A repeated string index after 255 distinct ones is refused, because the next number is computed first
  (`Witnesses.RepeatedStringRefused`, `Renumbering.WalkAccepts`).
- `readiness_timeout_ms` does not bound every reconfiguration handshake (`docs/profile-format.md:115-116`): quiescing
  clears the read timeout, so the wait for Serving is limited exactly when no generation was serving before
  (`Supervisor.Runtime.Configure`, `History.WaitsAreLimited`).
- A worker is started and not waited for when a resource name is longer than its 16-bit length field
  (`Supervisor.Runtime.SpawnWorker`); otherwise cleanup always reaps it (`Supervisor.Runtime.Cleanup`).
- `send` accepts up to 65535 descriptors and `receive` 256 (`Witnesses.ManyDescriptorsLost`, `Protocol.DecodeEncoded`).

## Model

| member | source | states |
|---|---|---|
| Records.Framing.TakeExact | src/functionfs.rs:125-136 | reading a declared number of records finds the only records of that number that stand, complete, at the front of the bytes; there are none exactly when it reports none |
| Records.Framing.SplitExact | src/usb_personality.rs:252-289 | splitting finds the only complete records that tile all the bytes, without gap or remainder, and fails exactly when there are none |
| Unicode.Utf16RoundTrip | src/usb_personality.rs:230-241 | UTF-16 encoding followed by decoding gives the text back |
| Unicode.Utf16Exact | src/usb_personality.rs:236 | units decode only if they are the encoding of the text they decode to |
| Unicode.Utf8RoundTrip | src/functionfs.rs:318-319 | UTF-8 encoding followed by decoding gives the text back |
| Unicode.Utf8Exact | src/functionfs.rs:318-319 | bytes are accepted as UTF-8 only if they are the encoding of a text; overlong forms and surrogates are refused |
| Unicode.Utf8AppendZero | src/functionfs.rs:273-276 | a trailing zero byte does not change whether bytes are UTF-8 |
| Configuration.InspectAndRewriteConfiguration | src/usb_personality.rs:246-291 | the in-place walk leaves in the array exactly the rewriting, and returns exactly the count, endpoints, string map and interfaces, of the recursive walk over the descriptors that tile the bytes; it fails when that walk fails |
| Renumbering.WalkNumbers | src/usb_personality.rs:264-273 | string numbers are dense, 1 to n, in order of first appearance; every index named and no other has one |
| Renumbering.WalkGathers | src/usb_personality.rs:260-288 | the count, the endpoints in order and the interface set are those of the descriptors |
| Renumbering.WalkRewrites | src/usb_personality.rs:264-273 | the bytes left behind are the descriptors with each string index replaced by its final number |
| Renumbering.WalkAccepts | src/usb_personality.rs:252-289 | the walk accepts exactly when no interface or endpoint descriptor is short and every reference finds fewer than 255 distinct indices before it, even a reference that repeats one |
| Renumbering.ProjectAccepts | src/usb_personality.rs:252-289 | a body is accepted exactly when it is tiled by descriptors that the walk accepts |
| Renumbering.RewritingTouchesOnlyStringIndices | src/usb_personality.rs:264-273 | rewriting keeps every descriptor boundary and changes no byte but nonzero string indices |
| Renumbering.RelabellingKeepsTopology | src/usb_personality.rs:260-288 | the rewritten descriptors have the endpoints and interfaces of the original ones |
| Renumbering.RewritingIdempotent | src/usb_personality.rs:246-291 | rewriting a rewritten configuration changes nothing and yields the identity map |
| StringProjection.FunctionFsStrings | src/usb_personality.rs:293-320 | the loop computes the blob of the texts in number order, or fails as the first lookup in that order fails |
| StringProjection.NumberOrderIsFirstAppearance | src/usb_personality.rs:298-299 | sorting the map by number recovers the order of first appearance |
| StringProjection.StringMeaning | src/usb_personality.rs:293-320 | the emitted blob always passes inspect_strings, and what it holds under a rewritten index is exactly the text the original index names in the selected language; index 0 stays 0 |
| StringProjection.StringPanicsExactly | src/usb_personality.rs:221-230 | reading a string panics exactly when its descriptor passes the checks with a length byte of zero |
| StringProjection.UsbStringIsShort | src/usb_personality.rs:230-241 | a string descriptor yields at most 378 bytes of UTF-8 |
| StringTables.InspectTexts | src/functionfs.rs:310-321 | the inner loop accepts exactly when the declared number of NUL-terminated UTF-8 strings follow, and stops behind them |
| StringTables.InspectStrings | src/functionfs.rs:292-327 | the validator accepts exactly the blobs that the reader of the format can read |
| StringTables.TakeTextsExact | src/functionfs.rs:310-321 | the strings read are the only NUL-free texts whose encoding stands there |
| StringTables.ReadBlobSound | src/functionfs.rs:292-327 | an accepted string blob is the encoding of the tables read from it, with no byte left over |
| StringTables.ReadBlobComplete | src/functionfs.rs:292-327 | the encoding of well-formed tables is accepted and read back |
| OsDescriptors.ParseExtendedCompatId | src/functionfs.rs:211-243 | accepts exactly the compatible-ID descriptors of exact length whose sections all name a known interface, hold a nonempty printable ID and zero reserved bytes |
| OsDescriptors.ParseProperty | src/functionfs.rs:252-284 | one round of the property loop accepts exactly a complete property of a known type with a NUL-terminated UTF-8 name and exact data length, and returns where it ends |
| OsDescriptors.ParseExtendedProperties | src/functionfs.rs:245-290 | accepts exactly the nonempty property descriptors that acceptable properties tile |
| OsDescriptors.ParseItem | src/functionfs.rs:176-206 | accepts exactly a complete feature descriptor of version 1.0 with a known index for a known interface |
| OsDescriptors.ParseMsOsDescriptors | src/functionfs.rs:169-209 | accepts exactly when the declared number of acceptable feature descriptors follow, and stops behind them |
| FunctionFs.ParseDescriptorSet | src/functionfs.rs:117-167 | accepts exactly when the declared number of descriptors follow, none short, with distinct nonzero endpoint numbers; returns their endpoints in order and their interfaces, and stops behind them |
| FunctionFs.ReadCounts | src/functionfs.rs:61-72 | reads one count for each speed flag and one for the feature descriptors, or fails when they are not all there |
| FunctionFs.ParseSets | src/functionfs.rs:74-96 | accepts exactly when the speed sets follow and agree on endpoints and interfaces |
| FunctionFs.InspectDescriptors | src/functionfs.rs:44-115 | accepts exactly the blobs that are the encoding of an acceptable layout, panics exactly when feature descriptors come without a speed set, and refuses everything else |
| FunctionFs.Inspect | src/functionfs.rs:38-42 | descriptors first, then strings |
| Layouts.LayoutExact | src/functionfs.rs:44-115 | the layout read from a blob is the only framed one whose encoding is the blob: header, counts, sets and items tile it with no gap, overlap or remainder, and each count is the number of its items |
| FunctionFs.AcceptedExactly | src/functionfs.rs:44-115 | a blob is accepted if and only if it is the encoding of a framed layout with agreeing speed sets and valid items; the result is that layout's endpoints |
| Layouts.FlagBits | src/functionfs.rs:10-72 | bits 0 to 3, 6 and 7 are the supported flags, bits 0 to 2 announce one set each |
| Emission.AcceptedHeaders | src/functionfs.rs:44-72 | accepted blobs start with magic 3 or 2 and their own length, and the flags byte tells whether feature descriptors follow |
| MicrosoftProjection.MicrosoftIdentifier | src/usb_personality.rs:407-414 | accepts exactly NUL-free ASCII of at most eight bytes, padded with zeros |
| MicrosoftProjection.CompatibleDescriptor | src/usb_personality.rs:333-354 | the section loop emits the compatible-ID descriptor exactly for at most 255 valid IDs with distinct known interfaces |
| MicrosoftProjection.GroupProperties | src/usb_personality.rs:356-382 | the map holds, for each interface named, its properties in declaration order, exactly when every property is valid |
| MicrosoftProjection.PropertyDescriptors | src/usb_personality.rs:383-397 | one descriptor per named interface, by ascending number, exactly when each group fits its count |
| MicrosoftProjection.ProjectMicrosoftOs1 | src/usb_personality.rs:322-405 | a declaration is projected exactly when it satisfies all its conditions, to the concatenation of its descriptors |
| MicrosoftAgreement.ItemsAccepted | src/functionfs.rs:169-290 | the projected descriptors are complete records, and the validator accepts them exactly when every compatible ID is nonempty and graphic, every property type is 1 to 7, and every name's UTF-16LE bytes are valid UTF-8 |
| Translator.CountFunctionFsOsDescriptors | src/usb_personality.rs:438-453 | counts the feature descriptors that tile the bytes, and fails when none do |
| Translator.DescriptorBlob | src/usb_personality.rs:152-174 | header, counts, configuration and feature descriptors, with the blob's own length patched in; refused when that does not fit 32 bits |
| Translator.ProjectConfiguration | src/usb_personality.rs:134-186 | the imperative steps compute the compiled projection, or its first failure |
| Translator.ProjectPersonality | src/usb_personality.rs:107-187 | the imperative steps of project compute its specification, with the same first failure |
| Translator.DiscoverBundle | src/usb_personality.rs:24-58 | checks schema, string count and string keys, then projects; the worker's maximum speed is kept |
| Acceptance.DiscoveredExactly | src/usb_personality.rs:24-187 | discover_bundle accepts a personality if and only if schema, string keys, language, device, readable device strings, configuration header, the descriptors that tile it, interface strings, capabilities and blob size are all in order, each told by bytes and numbers |
| Acceptance.LanguageExactly | src/usb_personality.rs:189-211 | the language is the first word of a string descriptor zero that holds at least one |
| Acceptance.StringExactly | src/usb_personality.rs:213-242 | a string is read as a text exactly when the bytes its length covers are the UTF-16 of that text |
| Emission.DescriptorBlobEmitted | src/usb_personality.rs:152-174 | for every accepted personality the blob is magic 3, its own length, flags 193 or, exactly when feature descriptors are emitted, 201, the number of descriptors and of feature descriptors, then the renumbered configuration and the feature descriptors |
| Emission.OnlyFullSpeed | src/usb_personality.rs:152-160 | read back, the blob has a full-speed set and neither of the other two, and both control flags |
| Emission.StringBlobEmitted | src/usb_personality.rs:293-320 | the string blob is magic 2, its own length, the number of strings, one language or none, and the texts the interfaces name by first appearance |
| Emission.AttributesEmitted | src/usb_personality.rs:107-187 | the numbers, strings and speed presented are those at their offsets in the device descriptor, the attributes are byte 7 of the configuration and the power twice byte 8, and the capabilities are the declared ones |
| Emission.FeatureDescriptorBytes | src/usb_personality.rs:333-397 | a feature descriptor is interface, own length, version 1.0, index 4 or 5, its count and its sections |
| Agreement.SetAccepted | src/functionfs.rs:117-167 | the validator accepts a speed set exactly when nothing is short and the endpoint addresses the translator listed are distinct with nonzero numbers; it then reads the same endpoints, interfaces and addresses |
| Agreement.SetsAgreeExactly | src/functionfs.rs:74-96 | several speed sets are accepted together exactly when each is in order and all have the same interfaces and, in order, endpoints of the same direction and transfer type |
| Agreement.ProjectionLayout | src/usb_personality.rs:152-174 | the projected blob is read by the validator as the relabelled configuration and the projected feature descriptors; the count in the header is the number it consumes |
| Agreement.ProjectionInspected | src/runtime.rs:743-773 | for every projection, inspect never panics, accepts exactly the inspectable ones, and reads the endpoints project listed, pointwise in direction and transfer type, so the count mismatch cannot occur |
| Bundles.BundleInspected | src/runtime.rs:743-773 | the same for every personality that discover_bundle accepts |
| Bundles.AcceptedThenRefused | src/functionfs.rs:147-150 | a personality that discover_bundle accepts and inspect refuses: endpoint number zero |
| Bundles.HollowStringPanics | src/usb_personality.rs:221-230 | a personality on which discover_bundle panics: a string descriptor of the bytes 0, 3 |
| Panics.DiscoverBundlePanicsExactly | src/usb_personality.rs:24-58 | discover_bundle panics exactly when schema, count, keys, device and languages are in order, and either the first unreadable device string has length byte zero, or the device strings read, the configuration is walked and an interface string of length byte zero follows only placeable ones |
| Panics.PanicsOnlyOnHollowString | src/usb_personality.rs:213-242 | without a string descriptor of length byte zero discover_bundle always returns |
| Witnesses.LoneOsDescriptorsPanic | src/functionfs.rs:97-107 | a blob of sixteen bytes on which inspect_descriptors panics: feature descriptors without a speed set |
| Witnesses.RepeatedStringRefused | src/usb_personality.rs:266-273 | 255 interfaces that name distinct strings are walked, and refused together with a repetition of the first |
| Witnesses.ManyDescriptorsLost | src/protocol.rs:71-99 | a record with 257 descriptors that can be sent and is refused when received |
| Discovery.DiscoverString | crates/usb-gadget-worker/src/discovery.rs:152-171 | a string is requested unless its index is zero or it was seen, and is kept as answered |
| Discovery.DiscoverStrings | crates/usb-gadget-worker/src/discovery.rs:122-132 | the nested loops request every index in every language once, in order, and keep every answer |
| Discovery.SurveyConfiguration | crates/usb-gadget-worker/src/discovery.rs:98-121 | the walk finds the interfaces and string indices of exactly the descriptors that tile the configuration |
| Discovery.ReadCompatibleIds | crates/usb-gadget-worker/src/discovery.rs:210-226 | the section loop reads the declared sections, or fails as the first bad one fails |
| Discovery.ReadRegistryProperties | crates/usb-gadget-worker/src/discovery.rs:242-280 | the offset loop reads the declared properties, each where the last one ended |
| Discovery.DiscoverProperties | crates/usb-gadget-worker/src/discovery.rs:228-281 | one request per interface, ascending; a stalled one adds nothing |
| Discovery.DiscoverMicrosoft | crates/usb-gadget-worker/src/discovery.rs:173-283 | the declaration is the function of the answers that Replies.MicrosoftFrom gives, the requests are those of the protocol in order, and the OS string is kept |
| Panics.IdentifierReturns | crates/usb-gadget-worker/src/discovery.rs:393-402 | unwrapping an identifier that was checked to be ASCII never panics |
| Panics.UrlPanicsExactly | crates/usb-gadget-worker/src/discovery.rs:420-433 | reading a URL reply panics exactly when it has at least three bytes, the URL type, a known scheme and a length byte below three |
| Panics.DiscoveryPanicsExactly | crates/usb-gadget-worker/src/discovery.rs:51-150 | the whole discovery panics exactly when everything before WebUSB is in order, a capability names a page, the device is configured, and the URL reply is one of those |
| Witnesses.ShortUrlPanics | crates/usb-gadget-worker/src/discovery.rs:420-433 | answers on which the whole discovery panics |
| Discovery.DiscoverWebUsb | crates/usb-gadget-worker/src/discovery.rs:285-349 | the capability walk and the landing page, as a function of the answers; on success the requests are exactly the BOS header, the whole BOS and, for a capability that names a page, the configuration and that page |
| WebUsbMeaning.FindsFirst | crates/usb-gadget-worker/src/discovery.rs:310-330 | the capability walk finds exactly the capability of the WebUSB UUID that stands behind complete capabilities of other kinds |
| WebUsbMeaning.LandingPageExactly | src/usb_personality.rs:416-436 | a landing page read from a reply is projected exactly when its bytes are at most 252 ASCII ones that begin with http:// or https://, or none |
| WebUsbMeaning.DiscoveredWebUsbProjected | crates/usb-gadget-worker/src/discovery.rs:285-349 | a declaration comes from the first WebUSB capability, and the projection accepts it exactly when that has version 1.0, a vendor code and no page or a projectable one |
| WebUsbMeaning.DeclarationProjected | src/usb_personality.rs:416-436 | any declaration is projected exactly for USB 2.1 or later, version 1.0, a vendor code and a URL of at most 252 ASCII bytes that is empty or HTTP(S) |
| Discovery.Discover | crates/usb-gadget-worker/src/discovery.rs:51-150 | the whole discovery is a function of the firmware's answers; on success its requests are, in order and with nothing else, those for the device, languages, configuration, every string, the Microsoft descriptors and WebUSB; each string kept answers a request for its own index and language |
| Transcripts.RequestsOnWire | crates/usb-gadget-worker/src/discovery.rs:30-44 | on success the requests are, as eight bytes each and in order, the ones of the protocol: type and index in wValue, language in wIndex, and the vendor requests |
| Transcripts.TableDiscovered | crates/usb-gadget-worker/src/discovery.rs:51-150 | a device that answers its standard requests from a table, as USB 2.0 section 9.4.3 has it, is discovered as the entries of that table: device, configuration, languages and every string |
| Transcripts.StockedDeviceDiscovered | crates/usb-gadget-worker/src/discovery.rs:51-150 | and a device whose table holds all that is asked for is discovered, whenever its Microsoft and WebUSB answers are acceptable |
| Transcripts.OsStringBytes | crates/usb-gadget-worker/src/discovery.rs:181-195 | the OS string is accepted exactly when bytes 2 to 15 are MSFT100 in UTF-16 and byte 16 is not zero |
| Transcripts.WebUsbUuid | crates/usb-gadget-worker/src/discovery.rs:20-22 | a WebUSB capability is told by the fields of the UUID 3408b638-09a9-47a0-8bfd-a0768815b665 |
| Transcripts.LanguageWords | crates/usb-gadget-worker/src/discovery.rs:68-77 | the languages are the little-endian words behind the first two bytes |
| StringClosure.DiscoveryClosesOverStrings | crates/usb-gadget-worker/src/discovery.rs:79-132 | after any successful discovery without a repeated string key, every device and interface string lookup of the projection finds an entry in the selected language |
| StringClosure.SurveyCovers | crates/usb-gadget-worker/src/discovery.rs:101-121 | discovery's walk and the projector's see the same interfaces, and every string index either names is noted |
| StringClosure.SurveyExactly | crates/usb-gadget-worker/src/discovery.rs:79-121 | discovery notes exactly the interfaces of the configuration and exactly the nonzero string indices of the device, the configuration and its interfaces |
| StringClosure.DiscoveredStringsSuffice | src/usb_personality.rs:213-220 | whatever the firmware answers, a discovered personality is never refused for a missing string |
| MicrosoftSurvival.SectionSurvives | crates/usb-gadget-worker/src/discovery.rs:217-226 | a canonical function section is projected to the bytes the firmware sent |
| MicrosoftSurvival.PropertySurvives | crates/usb-gadget-worker/src/discovery.rs:247-280 | a canonical property section is projected to the bytes the firmware sent |
| MicrosoftSurvival.GroupsSurvive | src/usb_personality.rs:356-382 | the properties grouped for an interface are the firmware's sections for it, in their order |
| MicrosoftEmission.CanonicalProjectable | src/usb_personality.rs:322-405 | a declaration read from canonical replies can be projected exactly when its vendor code is not zero and no two function sections name the same interface |
| MicrosoftEmission.MicrosoftSurvives | src/usb_personality.rs:322-405 | for canonical replies the emitted bytes are the firmware's own function sections behind one header and, by ascending interface, its own property sections behind one header each; refused exactly on vendor code zero or a repeated section interface |
| NativeBuilder.StringDescriptorReadsBack | crates/usb-gadget-worker/src/lib.rs:513-527 | the descriptor made of a text is read back by the translator as that text |
| NativeBuilder.StringFits | crates/usb-gadget-worker/src/lib.rs:513-527 | a text fits a string descriptor exactly when it has at most 126 UTF-16 units |
| NativeBuilder.PersonalityBuilder.AddInterface | crates/usb-gadget-worker/src/lib.rs:696-731 | an interface is added exactly when its number is new |
| NativeBuilder.BuildConfiguration | crates/usb-gadget-worker/src/lib.rs:561-614 | the loops build the sorted configuration with its length patched in, or fail exactly on an empty, repeated, invalid or oversized list |
| NativeBuilder.PersonalityBuilder.Personality | crates/usb-gadget-worker/src/lib.rs:530-632 | the imperative steps build the personality of the specification |
| NativeBuilder.ConfigurationCanonical | crates/usb-gadget-worker/src/lib.rs:562-571 | the configuration bytes do not depend on the order in which interfaces were added |
| NativeRecovery.NativeConfigurationRecovered | crates/usb-gadget-worker/src/lib.rs:572-607 | for well-formed class descriptors the translator accepts the configuration and recovers the interfaces by increasing number, each with its IN and then its OUT endpoint, type and packet size; the configuration splits into exactly the descriptors built |
| NativeRecovery.NativeDescriptorsRecovered | crates/usb-gadget-worker/src/lib.rs:561-614 | the configuration has value 1, attributes 0x80 and 100 mA, and its interface and endpoint descriptors, byte by byte, are those of the interfaces by increasing number: number, class, subclass, protocol and string, then the IN and the OUT endpoint |
| NativeRecovery.NativeDeviceDescribed | crates/usb-gadget-worker/src/lib.rs:530-560 | each field of the device descriptor stands at its offset |
| NativeDiscovery.NativePersonalityDiscovered | crates/usb-gadget-worker/src/lib.rs:530-632 | for well-formed class descriptors discover_bundle accepts a built personality exactly when its interfaces name supplied strings without a NUL and its capabilities are projectable, and presents the device's own numbers and texts and the endpoint pairs by increasing interface number |
| Protocol.Send | src/protocol.rs:71-99 | the appended bytes are the header fields in big-endian order and the body; oversized bodies and descriptor lists are refused |
| Protocol.DecodeEncoded | src/protocol.rs:190-236 | a record that was encoded is decoded to itself, unless it carries more than 256 descriptors |
| Protocol.EncodeDecoded | src/protocol.rs:190-236 | every accepted packet is the encoding of the record read from it |
| Protocol.PacketBytes | src/protocol.rs:71-99 | a packet is UGSP, version 1, the kind, and counts and numbers in big-endian order, then the body |
| Protocol.EndpointMap | src/runtime.rs:872-885 | the loop appends four bytes per endpoint behind their number |
| Protocol.EndpointMapInjective | src/runtime.rs:872-885 | different endpoint lists never have the same map |
| Protocol.EndpointMapBytes | src/runtime.rs:872-885 | the map tells, at fixed offsets, the number of endpoints and the address, transfer type and packet size of each |
| Protocol.ResourceNames | src/runtime.rs:853-870 | the loop appends each name behind its length, and fails exactly when a length does not fit |
| Protocol.ResourceNamesInjective | src/runtime.rs:853-870 | different name lists never have the same body |
| Protocol.NamesReadBack | src/runtime.rs:853-870 | a reader that follows the lengths gets the names back |
| Protocol.EventRoundTrip | crates/usb-gadget-worker/src/lib.rs:98-113 | bus events are decoded as they were encoded, and a body that decodes is the encoding of what it decodes to |
| Protocol.EventBody | crates/usb-gadget-worker/src/lib.rs:98-103 | a bus event is its FunctionFS code and the activation in big-endian order |
| Kernel.StepSound | src/runtime.rs:586-650 | no allowed event breaks the kernel's own invariants: a rooted tree, no mount without a directory, no open file without a mount, no channel without a worker |
| Kernel.SafeIsSound | src/runtime.rs:107-210 | those invariants hold after every safe run |
| Supervisor.Runtime.Unbind | src/runtime.rs:808-821 | a successful unbind is noted once; unbinding an unbound gadget changes neither the world nor the instant noted |
| Supervisor.Runtime.WaitForReconnectDwell | src/runtime.rs:823-831 | after it 250 ms have passed since the unbind noted; without one it does nothing |
| Supervisor.Runtime.RemoveGadgetTree | src/runtime.rs:833-842 | success leaves nothing; each removal is allowed when it is made, and succeeds when teardown calls are reliable |
| Supervisor.LeavesFirst | src/runtime.rs:833-842 | in the removal order no directory is removed while something stands in it or links to it |
| Supervisor.Runtime.ExpectRecord | src/runtime.rs:887-906 | success means that a matching record without body or descriptors was heard: its reply is no longer owed, a Serving counts for the generation lent, a Quiesced ends the loan |
| Supervisor.Runtime.QuiesceWorker | src/runtime.rs:543-584 | success is the exchange of Quiesce and Quiesced for the generation under the request, within the time limit, after which the worker holds no file of it and nothing new is owed; on failure the channel is closed |
| Supervisor.Runtime.StopUsbGeneration | src/runtime.rs:586-608 | whatever fails, the flags and the generation are dropped; success leaves nothing in the kernel, and reliable teardown succeeds |
| Supervisor.Runtime.CleanupStaleState | src/runtime.rs:652-661 | success removes whatever an earlier run left behind, unbinding it first |
| Supervisor.Runtime.PopulateGadget | src/runtime.rs:663-729 | success leaves exactly the projection's nodes and attribute texts, and no function link; the gadget is owned as soon as anything of it exists |
| Numerals.HexReads | src/runtime.rs:668-676 | the 0x form with leading zeros is read back as the number |
| Numerals.DecimalReads | src/runtime.rs:692-695 | the decimal form is read back as the number, never as hexadecimal |
| Numerals.HexWidths | src/runtime.rs:668-676 | 16-bit numbers are written with four hexadecimal digits, bytes with two |
| ConfigFs.SettingsPresent | src/runtime.rs:666-724 | read back, the text of every attribute of a populated gadget stands for the projection's value in the attribute's own form, and no attribute is set that the projection has no value for |
| ConfigFs.SettingsDetermine | src/runtime.rs:666-724 | two gadgets have the same attribute texts exactly when their projections agree on device, speed, power, attributes, Microsoft and WebUSB |
| Supervisor.Runtime.MountFunctionFs | src/runtime.rs:731-741 | succeeds exactly when FunctionFS is mounted, and records it |
| Supervisor.Runtime.PublishFunctionFs | src/runtime.rs:743-773 | on success the blobs passed inspect and were written to EP0, descriptors first, and one file is open per endpoint read, in its direction |
| Supervisor.FilesFit | src/runtime.rs:756-771 | the files opened for an accepted personality fit its endpoint map entry by entry |
| Supervisor.Runtime.LinkFunction | src/runtime.rs:775-781 | the function is linked into the configuration, or nothing changes |
| Supervisor.Runtime.Announce | src/runtime.rs:334-354 | on success the projection's own endpoints were lent, in a map of them and with the files opened behind its own blobs, and the worker has reported Serving for this generation and request |
| Supervisor.Runtime.RejectConfiguration | src/runtime.rs:510-521 | one rejection under the old generation and the declaration's request ID |
| Supervisor.Runtime.EndGeneration | src/runtime.rs:313-319 | the gadget is unbound first, then the worker quiesced under the declaration's request, and only then the generation taken down |
| Supervisor.Runtime.Configure | src/runtime.rs:262-368 | accepted: attached under the next number for this request with the projection's attribute texts, its own blobs and its own endpoints lent, after the generation before was unbound and quiesced, the wait for Serving limited exactly when none was; empty: nothing is left and no dwell is pending; rejected by discover_bundle: one answer, nothing else changed; refused by inspect alone: always fails, and once numbered leaves no generation; mismatched: nothing happens; when no call fails, configuring fails only for a panic, an initial rejection, a refused body, an exhausted number, an empty request with nothing to take down, or a record heard in the place of Quiesced or Serving |
| Supervisor.Runtime.SpawnWorker | src/runtime.rs:241-254 | on success the first record sent to the worker holds the names of its resources; on failure a process is left behind exactly when it was started and its resource names cannot be sent |
| Supervisor.Runtime.StartWorker | src/runtime.rs:212-260 | success is a fresh worker on a limited channel, told its resources; failure leaves no worker the runtime knows of |
| Supervisor.Runtime.Setup | src/runtime.rs:68-105 | success is a freshly started worker and a runtime ready to serve |
| Supervisor.Runtime.RestartWorker | src/runtime.rs:610-621 | the gadget is unbound before the old worker is hung up on and reaped; success is a freshly started worker with at most one generation, ready to serve |
| Supervisor.Runtime.ReloadProfile | src/runtime.rs:623-650 | the same after a profile change, whatever remains stand at the new place, with a serving worker quiesced in between and the new resource names in force |
| Supervisor.Runtime.Cleanup | src/runtime.rs:183-210 | however the run went: no channel, no open or lent file, and the worker reaped if its resource names could be sent; a clean one unbinds, quiesces, hangs up and reaps in this order; with reliable teardown also no tree, mount, mount directory or binding; a second cleanup does nothing |
| Supervisor.Runtime.ForwardBusEvent | src/runtime.rs:417-446 | an event is forwarded with the count of fresh enables so far, and the counters stay those of the events |
| Supervisor.Runtime.ForwardControlRequest | src/runtime.rs:448-508 | success is one transaction: what the host sent is read, the setup packet and exactly those bytes go to the worker under the next ID, its matching response is heard, and EP0 carries out exactly that response; unless it fails for good, cancelled or not, nothing is owed and no request is at hand afterwards |
| Kernel.Response | src/runtime.rs:498-507 | the body 0 stalls, 1 acknowledges an OUT transfer, 2 and data answers an IN transfer with a prefix never longer than asked for and cut only then; everything else is refused |
| Kernel.EventBytes | src/runtime.rs:394-411 | event k of a read is told by byte 8 of its twelve bytes, and a Setup event holds its packet in the first eight |
| Supervisor.Runtime.HandleEvents | src/runtime.rs:401-413 | all events of a read are handled in order, each bus event forwarded once and each control request answered or superseded |
| Supervisor.Runtime.ServiceEp0 | src/runtime.rs:370-415 | the loop head is reached again with nothing owed and nothing unread |
| Supervisor.Runtime.HearWorker | src/runtime.rs:146-170 | a record that arrives is the next declaration taken up; at the end of the channel the worker is replaced |
| Supervisor.Runtime.Turn | src/runtime.rs:107-181 | a worker that has exited, or whose profile has changed, is replaced by a fresh one, with the new names |
| Supervisor.Runtime.Serve | src/runtime.rs:107-181 | at every loop head: owned, mounted and attached after Serving, or nothing of a generation left; no reply owed, no declaration pending, no control request at hand, waits unlimited; generation numbers agree |
| Supervisor.Run | src/runtime.rs:68-210 | setup, any number of turns and cleanup make a safe run that ends with no channel and no file held, with the worker reaped if its resource names could be sent, and with nothing left when teardown is reliable |
| History.UnmountedUnheld | src/runtime.rs:586-598 | in every run, when FunctionFS is unmounted each worker lent its files has reported that generation quiesced or been reaped, and the supervisor has closed its own |
| History.AttachAcknowledged | src/runtime.rs:343-356 | in every run, each attach follows the lending of that generation's files and then the worker's Serving for the same generation and request |
| History.BoundAcknowledged | src/runtime.rs:334-356 | at every moment of every run, a gadget bound for a generation and request is bound for the current ones: their files were lent, Serving was then reported for them, the gadget was then attached, and since the lending nothing else was lent and no worker started |
| History.UnboundAtStart | src/runtime.rs:610-621 | in every run nothing is bound when a worker is started or files are lent |
| History.BoundByAttach | src/runtime.rs:355-356 | whenever the gadget is bound, the attach that bound it is the last attach, and no detach, lending or start of a worker came since |
| History.AttachedAsDeclared | src/runtime.rs:262-356 | in every run, whenever the gadget is attached its attribute texts, both blobs, its endpoint files and the endpoints lent are those of one declaration's personality |
| History.DwellBetweenUnbindAndBind | src/runtime.rs:808-831 | every bind after a successful unbind comes at least 250 ms later, unless an empty Configure came between |
| History.SleepCompletesDwell | src/runtime.rs:823-831 | each sleep completes the dwell of an unbind followed by no bind and no empty Configure; so a first bind and a bind after an empty Configure add none |
| History.RequestIdsNeverRepeat | src/runtime.rs:466-471 | control request IDs strictly increase, across generations and worker restarts |
| History.RequestsCarryHostData | src/runtime.rs:448-476 | in every run each control request is the setup packet last taken from EP0 followed by exactly the bytes the host has sent since, as many as an OUT packet announces and none for an IN one |
| History.ResponsesAreAnswers | src/runtime.rs:477-508 | in every run what is done on EP0 is what the worker's answer to the last request says, for the packet last taken |
| History.EveryControlRequestAnswered | src/runtime.rs:394-411 | at every loop head each control request taken has been answered on EP0 or superseded, or EP0 was opened anew |
| History.EveryRequestSettled | src/runtime.rs:448-584 | whenever nothing is owed, every UsbEndpoints, Quiesce and control request sent has had its matching reply consumed or its channel closed |
| History.WaitsAreLimited | src/runtime.rs:543-562 | every wait for the worker is limited in time, except the wait for Serving exactly when a Quiesce was sent for the same declaration |
| History.ActivationCountsFreshEnables | src/runtime.rs:417-446 | every bus event carries the number of Enable events so far not preceded by another since the last Bind, Unbind or Disable |
| History.ForwardingKeepsOrder | src/runtime.rs:401-413 | what was forwarded, followed by what is unread, is exactly what was read |
| History.GenerationsCount | src/runtime.rs:320-323 | generations lent to one worker are numbered 1, 2, 3, ...; a rejection carries the number last lent |
| History.AnswersMatchDeclarations | src/runtime.rs:297-349 | each UsbEndpoints and each rejection answers the last declaration, once, under its request ID: endpoints exactly for a body that discover_bundle accepts, and then the personality's own endpoint list, in a map of it, with the files opened behind its blobs |
| History.AsksWereDeclared | src/runtime.rs:146-170 | only declarations heard from the worker are taken up, the last one, once |
| History.EveryDeclarationTakenUp | src/runtime.rs:146-170 | at every loop head each declaration heard before has been taken up or lost with its worker |
| History.EveryDeclarationAnswered | src/runtime.rs:262-368 | at every loop head each declaration taken up has been answered by endpoints or a rejection under its own request ID, emptied, or lost with its worker |
| Activations.FreshPush | src/runtime.rs:421-433 | the count grows exactly with an Enable while endpoints are not enabled |
| Activations.QuietEvents | src/runtime.rs:421-433 | Suspend, Resume and a repeated Enable leave the count unchanged |
| Activations.LargerMeansFreshEnable | crates/usb-gadget-worker/src/lib.rs:40-46 | a larger number means that a fresh enable came since |
| EndpointLifecycle.InvariantAlways | crates/usb-gadget-worker/src/lib.rs:35-69 | mutual exclusion and the state of every call hold in every interleaving, spurious wakeups included |
| EndpointLifecycle.NoLostWakeup | crates/usb-gadget-worker/src/lib.rs:59-68 | in every interleaving a parked waiter that nobody is about to notify faces a generation neither stopping nor activated beyond what it observed; a returned value is newer than that |
| EndpointLifecycle.ActivationTakesEffect | crates/usb-gadget-worker/src/lib.rs:40-46 | in every interleaving, once activate(a) has returned without a stop the activation is at least a, no waiter that observed less is parked unless somebody is about to notify, and as long as one has not returned some thread can step |
| EndpointLifecycle.ReturnsAtLeast | crates/usb-gadget-worker/src/lib.rs:59-68 | a waiter that returns a value after an announcement has run returns at least what was announced |
| EndpointLifecycle.ActivatedWaiterDrains | crates/usb-gadget-worker/src/lib.rs:59-68 | each step of an activated waiter brings it closer to its return, and no other step takes it back |
| EndpointLifecycle.Monotone | crates/usb-gadget-worker/src/lib.rs:40-54 | activation never decreases and stopping is permanent |
| EndpointLifecycle.StoppingDrains | crates/usb-gadget-worker/src/lib.rs:48-68 | once stopping, every step of any thread brings the calls closer to their end |
| EndpointLifecycle.StoppingProgresses | crates/usb-gadget-worker/src/lib.rs:48-68 | once stopping, some thread can step until all calls have returned, without relying on spurious wakeups |
| EndpointLifecycle.AllDrainAfterStop | crates/usb-gadget-worker/src/lib.rs:48-68 | after stop the steps left are bounded, and no call that had not returned yet returns a value |
| EndpointLifecycle.ReleasedByFreshEnable | crates/usb-gadget-worker/src/lib.rs:59-68 | a waiter fed these counts is released only by a fresh enable after the point it observed |

## Left out

- ConfigFs.SettingsPresent: attributes that the kernel sets on its own, or refuses to take over, are not modelled.
- Supervisor.Runtime.StopWorker: polling, TERM and KILL are modelled as returning with the worker reaped.
- Supervisor.Runtime.Cleanup: the runtime directory and a ConfigFS mounted by the supervisor are not modelled.
- Supervisor.Runtime.CleanupStaleState: remains of an earlier run are nodes of the kinds the supervisor creates, held by nobody.
- Supervisor.Runtime.Serve: signals, poll and worker exit are arbitrary choices at each turn; the number of turns is arbitrary and finite.
- Supervisor.Runtime.ForwardControlRequest: only an EP0 transfer, never the channel, reports EIDRM.
- Supervisor.Runtime.Configure: a panic of discover_bundle is an error exit, as unwinding runs the same cleanup; the debug copy of the bundle is a call that may fail.
- Supervisor.Runtime.RestartWorker: no progress is claimed for a worker that sends records out of turn, which is a protocol error.
- Supervisor.Runtime.Unbind: ENODEV is taken to mean that the gadget is not bound; a UDC that vanishes on its own is not modelled, and an unbind forced by removing the function link starts no dwell.
- Supervisor.Run: nobody but the supervisor changes ConfigFS, and a worker that answers Quiesced for its generation has closed its endpoint files.
- Translator.DiscoverBundle: the CBOR decoding of the personality is a given function.
- Translator.ProjectPersonality: error texts are not modelled; errors are told apart only where a missing string matters.
- Discovery.Discover: the callback is any script of answers; the C entry points and the eight-byte form of a setup packet are left out.
- Discovery.DiscoverWebUsb: a URL descriptor with a length byte below three makes the program panic; the panic is modelled, no personality is claimed for it.
- MicrosoftEmission.MicrosoftSurvives: bytes of a reply behind its declared sections are dropped by discovery and by the statement.
- NativeDiscovery.NativePersonalityDiscovered: class descriptors that are not whole records of a class are not described; they may swallow what follows them.
- NativeBuilder.PersonalityBuilder.AddInterface: C pointers and the setters for the serial number and the capabilities are left out.
- Sorting.SortBy: stands for the library sort; only sortedness and the multiset are used, since equal keys are refused.
- Protocol.DecodeEncoded: system calls and the ancillary layout are left out; a packet is its bytes and its descriptors.
- EndpointLifecycle.InvariantAlways: lock poisoning is left out, as the source ignores it.
- Device mode, the BSC target driver, GPIO lines, profiles, the command line, privilege dropping, lock files and UDC selection: thin layers over the operating system or checks settled by reading one branch.
