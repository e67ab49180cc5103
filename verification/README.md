# wfm: a verified model of the Wi-Fi backends and their clients

wfm drives the Wi-Fi stack of a remote node behind one backend interface. This
project models the parts of it that carry state or a text format, and proves what
they promise:

| modules | what they model |
|---|---|
| `IwdFilename`, `IPv4`, `IpText`, `Ini`, `IwdProfile`, `IwdFormat`, `IwdStore`, `IwdReads` | the iwd profile store: file names, provisioning files, Add/Patch/Delete over a directory, and reads |
| `Uci`, `UbusStore`, `UbusRefinement`, `UbusActivate`, `UbusBackend`, `UbusWrites`, `UbusRefusals`, `UbusInterrupted`, `UbusShared` | the OpenWrt profile store: station sections of a staged and a committed config, edited by remote calls that may fail, and activation |
| `UbusSession` | the session of the ubus client, shared by any number of concurrent calls |
| `ScanCache`, `ScanServer`, `ScanFile` | the scan cache, the requests served through it, and its file under concurrent writers and crashes |
| `Watch`, `WatchMeaning` | the three watchers that turn observations into a stream of status reports |
| `NmSettings`, `NmTerse` | the NetworkManager connection dictionary and nmcli's terse lines |
| `Exclude` | the wrapper that hides interfaces |
| `Tui` | cursor, viewport and list of the terminal UI |
| `Text`, `Wnet` | byte strings and the shared domain types |

Code that changes things step by step is a method or a class whose contract gives
the whole new state, usually through a specification function; what the program
promises is then proved about that function by lemmas.

## Assumptions

- A profile id is a UUIDv5 (RFC 9562, section 5.5) of a byte string, and a section
  name of the ubus store is built from a truncated SHA-1 digest. Both are taken to be
  free of collisions: the id wraps its preimage, the digest is its preimage.
- A named `uci add` replaces a section of that name. Between the reads and the writes
  of one operation nobody else edits the config. Every remote call may be refused, or
  may take effect and still be reported as failed; a success is never reported for a
  command that was not applied. The `reliable` flag of `UbusBackend.Backend` selects
  the case in which every call gets through.
- The ubus server never issues a session id twice.
- `rename` is atomic, and the names of temporary files are fresh. Encoding the cache
  and decoding it again gives it back.
- A write to the iwd store may leave any prefix of the content behind, or fail before
  it touches the file.
- IPv6 text is read and shown by some pair of functions of which only this is used: the
  texts are made of hexadecimal digits, colons and dots, every address has some text,
  and one that is not IPv4-mapped is read back from the text shown for it
  (`IpText.V6_TEXT`; that such a pair exists is proved). IPv4 text is modelled digit by
  digit.
- The wrapped backend's lookup by interface name agrees with its listing.

Strings are byte strings, as in Go. Times are unbounded integers.

## Where the code falls short of what one might expect

Each of these is stated exactly, as an equivalence or with a concrete run.

- A netmask that is not a prefix mask is read back as `/0` (`JoinKeepsPrefixMasksOnly`,
  with a mask in `HoledMaskIsLost`), and an IPv6 CIDR string in the IPv4 family of an
  iwd profile loses its prefix (`CidrKeptIff`).
- An IPv4-mapped address with a prefix above 32 is read back from NetworkManager in a
  form that cannot be written again (`KeptAddressIsStableIff`, with the addresses in
  `MappedAddressIsLost`).
- A cache file with two entries for one interface, which wfm itself never writes, can
  serve after a reload what it did not serve before (`ReloadServesTheSameIff`).
- A file made by hand can carry a second name for the same network; lookup by id then
  depends on the listing order (`TwoNamesOneNetwork`, `LookupIsOrderFreeIff`).
- A patch of the iwd store removes the old file first if it renames, and truncates it
  otherwise, so a write that fails can lose the profile in either case. It survives a
  rename only if the old file could not be removed, and a patch in place only if the
  file could not be opened or happens to be left with its old content
  (`FailedPatchKeepsEntryIff`, with an empty patch in `TornEmptyPatchLosesProfile`).
- A renaming patch of the ubus store loses the profile when the old section already
  has the new name and no other station has the new SSID and kind
  (`RenameSurvivesIff`). On a node where another tool keeps a station with the new SSID
  and kind under a name of its own, a rename leaves two sections with one id
  (`RenameKeepsUniqueIff`).
- A patch of the ubus store that renames keeps nothing of the old section but its key and
  its flag: radio, pinned BSSID and options of other tools are gone (`PatchWrites`).
- An activation that stops midway leaves its rivals disabled in the staged config, and
  the next request to complete, of whatever kind, commits that, unless it decides on
  those flags itself (`StoppedActivationLeaksIff`). Repeating the activation repairs it
  (`RepeatedActivationHeals`), and so does activating another station on the same radio,
  but not one on another radio (`ActivationHidesIff`).
- The retry of a call goes out without a session exactly if the call entered its
  relogin when the last answered login, that of another call, had failed
  (`EmptyRetryIff`, with a run in `EmptyRetryHappens`).
- The terminal UI stops scanning for good once the result of a scan arrives for an
  interface that is no longer selected (`StuckIff`, `StuckForGood`, with a run in
  `TabDuringScanSticks`).
- While the lookup of an interface fails, the exclusion guard lets it through if only
  its address is excluded (`GuardIsFullIff`, `SlipHappens`).
- The name shortcut of the exclusion rules is wrong for a rule whose MAC holds no
  hexadecimal digit; validation rejects such rules (`ShortcutSoundIff`).
- Enterprise security does not survive the uci encoding or the NetworkManager
  dictionary (`KindRoundTripIff`, `ProfileReadBack`).

## Model

| member | source | states |
|---|---|---|
| Wnet.DeriveIDInjective | internal/wnet/id.go:14-19 | equal ids mean the same SSID and security kind, also for an SSID that contains the separator byte |
| IwdFilename.SimpleSSID | internal/wnet/iwd/profile.go:20-33 | the byte loop accepts exactly the non-empty strings of letters, digits, space, `_` and `-` |
| IwdFilename.ProfileFilename | internal/wnet/iwd/profile.go:36-58 | builds the file name that the codec lemmas below are about |
| IwdFilename.NameIff | internal/wnet/iwd/profile.go:20-58 | the name is the SSID itself, a dot and the type exactly for a non-empty SSID of letters, digits, blanks, `_` and `-`, and starts with `=` and the hexadecimal bytes otherwise |
| IwdFilename.HexText | internal/wnet/iwd/profile.go:35-42 | every byte is written as its two digits, high one first, in lower case |
| IwdFilename.HexRoundTrip | internal/wnet/iwd/profile.go:36-54 | hexadecimal decoding undoes encoding for every byte string, and the digits are lower case |
| IwdFilename.HexReencode | internal/wnet/iwd/profile.go:44-54 | a decodable string is what encoding prints exactly if its digits are lower case |
| IwdFilename.FilenameRoundTrip | internal/wnet/iwd/profile.go:35-77 | for every byte-string SSID and each of the three types, the file name parses back to that pair |
| IwdFilename.FilenameInjective | internal/wnet/iwd/profile.go:56-58 | different networks never share a file name |
| IwdFilename.FilenameIsPlain | internal/wnet/iwd/profile.go:56-58 | a file name holds no path separator and no zero byte, and is neither directory name |
| IwdFilename.CanonicalIff | internal/wnet/iwd/profile.go:35-77 | which readable names the backend itself would choose: a simple stem, or lower-case hex of an SSID that is not simple |
| IwdFilename.TwoNamesOneNetwork | internal/wnet/iwd/profile.go:44-77 | the hex form of a simple SSID is a second, readable name of the same network |
| IwdFilename.NetworkIdInjective | internal/wnet/iwd/iwd.go:287-289 | the id comparison of the lookup identifies SSID and type |
| IPv4.ParseFormat | internal/wnet/iwd/profile.go:100-113 | dotted-decimal text parses to an address exactly if it is the text printed for that address |
| IPv4.ParseFormatCIDR | internal/wnet/nmdbus/convert.go:147-154 | a printed address and prefix up to 32 parse back, host bits kept |
| IpText.ParseShowIP | internal/wnet/nmdbus/convert.go:147-166 | an address of either family is read back from its text |
| IpText.ParseShowCIDR | internal/wnet/nmdbus/convert.go:147-154 | a printed prefix is read back exactly if the notation of its address has room for it |
| IpText.CidrHasSlash | internal/wnet/iwd/profile.go:100-113 | no text is read both as an address and as a CIDR string |
| IPv4.MaskLengthIff | internal/wnet/iwd/profile.go:123-124 | the byte-and-shift loop sizes a mask n exactly if it is n one bits followed by zeros |
| IPv4.MaskLengthOfPrefix | internal/wnet/iwd/profile.go:102-105 | a 32-bit mask has size n exactly if it is the prefix mask of n |
| IwdProfile.CidrRoundTrip | internal/wnet/iwd/profile.go:100-125 | for every address and prefix 0 to 32, splitting into address and netmask and joining again gives the same CIDR string |
| IwdProfile.CidrNormalises | internal/wnet/iwd/profile.go:100-125 | one round trip brings any accepted text, of either family, to a form that further round trips keep |
| IwdProfile.CidrKeptIff | internal/wnet/iwd/profile.go:100-125 | the round trip returns the text itself exactly for bare addresses and canonical IPv4 CIDR strings; IPv6 notation loses its prefix |
| IwdProfile.JoinKeepsPrefixMasksOnly | internal/wnet/iwd/profile.go:115-125 | joining yields `/n` for n > 0 exactly for the prefix mask of n; a mask that is no prefix mask becomes `/0` |
| IwdProfile.HoledMaskIsLost | internal/wnet/iwd/profile.go:115-125 | `255.0.255.0` is such a mask |
| Ini.ParseINI | internal/wnet/iwd/profile.go:173-194 | the scanning loop with its current section computes the line-by-line fold that the lemmas reason about |
| Ini.PrintParse | internal/wnet/iwd/profile.go:173-194 | any list of blocks with clean keys and values, of any length, is read back as the map it describes |
| Ini.ValuesAreClean | internal/wnet/iwd/profile.go:178-191 | whatever the content, every value read is trimmed and on one line |
| IwdProfile.RenderProfile | internal/wnet/iwd/profile.go:129-170 | the text the builder ends with is the printed block list of the profile |
| IwdProfile.ParseProfile | internal/wnet/iwd/profile.go:198-241 | reads flags, addresses, gateway, DNS and search domain with their defaults, and never a passphrase into the profile |
| IwdProfile.RoundTripIff | internal/wnet/iwd/profile.go:129-241 | a rendered profile is read back as what the format keeps exactly if every kept value is trimmed, on one line and splits into the same words |
| IwdProfile.KeptIsStable | internal/wnet/iwd/profile.go:129-170 | rendering what was kept gives the same file, and keeping is idempotent, for all settings |
| IwdProfile.KeptCanBeStored | internal/wnet/iwd/profile.go:129-170 | what is kept can be read back exactly if the settings could |
| IwdProfile.RewriteIsIdentity | internal/wnet/iwd/profile.go:129-241 | reading a rendered file and rendering it again gives the same bytes |
| IwdProfile.DecodedValuesAreClean | internal/wnet/iwd/profile.go:198-241 | whatever was read from any file can be stored again |
| IwdFormat.FileText | internal/wnet/iwd/profile.go:129-170 | the file character by character: which sections, keys and lines there are, in which order |
| IwdFormat.KeptV4Iff | internal/wnet/iwd/profile.go:140-156 | a manual IPv4 family is kept exactly if its first address can be read, with that address, the gateway, all servers and the first search domain; every other becomes automatic |
| IwdFormat.KeptV6Iff | internal/wnet/iwd/profile.go:157-168 | a manual IPv6 family is kept exactly if it has an address, without search domains |
| IwdFormat.FlagsIff | internal/wnet/iwd/profile.go:86-95 | autoconnect is off exactly for three spellings of no and hidden is on exactly for three of yes, in either case |
| IwdFormat.AbsentSectionDefaults | internal/wnet/iwd/profile.go:198-241 | a file without a header for the flags, the passphrase or a family is read with their defaults |
| IwdFormat.NoiseIsIgnored | internal/wnet/iwd/profile.go:173-194 | blank lines, comments and lines without `=` may stand anywhere in a file |
| IwdFormat.PaddedEntryIsRead | internal/wnet/iwd/profile.go:173-194 | white space around key, value and line is not part of either |
| IwdStore.FindProfileFile | internal/wnet/iwd/iwd.go:275-293 | the listing loop returns the first readable name whose derived id is the one asked for |
| IwdStore.FindFileIff | internal/wnet/iwd/iwd.go:275-293 | what is found is the file with that id that is listed first |
| IwdStore.LookupIsOrderFreeIff | internal/wnet/iwd/iwd.go:275-293 | lookup is independent of the listing order exactly if no network has two files |
| IwdStore.FindIsLookup | internal/wnet/iwd/iwd.go:275-293 | over canonical names an id is found exactly if its network is in the map, and under that network's own name |
| IwdStore.MergePatch | internal/wnet/iwd/iwd.go:360-390 | the field-by-field update takes what the patch gives, and keeps the stored passphrase for a blank one of the same kind |
| IwdStore.Store.AddProfile | internal/wnet/iwd/iwd.go:333-346 | directory and answer after an add, for every outcome of the write and every rejected spec |
| IwdStore.Store.PatchProfile | internal/wnet/iwd/iwd.go:348-404 | directory and answer after a patch, including a removal or a write that fails |
| IwdStore.Store.DeleteProfile | internal/wnet/iwd/iwd.go:406-412 | removes exactly the file found, or nothing with an error |
| IwdStore.AddRefinesUpsert | internal/wnet/iwd/iwd.go:333-346 | add is an upsert of (SSID, type); what is stored decodes to the kept settings exactly if the format can carry them; other files are untouched |
| IwdStore.AddStoresIff | internal/wnet/iwd/iwd.go:333-346 | passphrase, flags and kept families of the spec are what is read under its SSID and type, exactly if the file can carry them |
| IwdStore.AddRefusedIff | internal/wnet/iwd/iwd.go:333-346 | an add is invalid exactly without an SSID and unsupported exactly for enterprise security, and then changes nothing |
| IwdStore.PatchRefinesMove | internal/wnet/iwd/iwd.go:348-404 | patch moves the entry to its new key, replacing what was there, and keeps the stored passphrase |
| IwdStore.PatchStoresIff | internal/wnet/iwd/iwd.go:348-404 | under the SSID and type the patch leads to, every setting is the patch's where it gives one and the stored one otherwise, a blank passphrase of the stored kind counting as none given, exactly if the patch fits the file; the old network is gone and no other changes |
| IwdStore.PatchRefusedIff | internal/wnet/iwd/iwd.go:386-388 | a patch is unsupported exactly if the network would be an enterprise one, and then changes nothing |
| IwdStore.FailedPatchKeepsEntryIff | internal/wnet/iwd/iwd.go:397-403 | for every way in which the write can fail: the old entry is intact exactly if a rename could not remove its file, or in place the file could not be opened or was left with its old content; and when nothing at all has changed |
| IwdStore.TornEmptyPatchLosesProfile | internal/wnet/iwd/iwd.go:397-403 | even an empty patch destroys the profile if its write fails right after truncating the file |
| IwdStore.DeleteRefinesRemove | internal/wnet/iwd/iwd.go:406-412 | delete removes one key of the map and touches no other file |
| IwdReads.GetProfile | internal/wnet/iwd/iwd.go:321-331 | reads the profile of the file found, or reports that there is none |
| IwdReads.ListProfiles | internal/wnet/iwd/iwd.go:295-319 | the listing loop reads exactly the provisioning files, in order |
| IwdReads.ProfilesAreTheMap | internal/wnet/iwd/iwd.go:295-319 | over canonical names the listing shows every entry of the map once, under distinct ids |
| IwdReads.ReadIsLookup | internal/wnet/iwd/iwd.go:321-331 | over canonical names a read by id is a map lookup, whatever the listing order |
| IwdReads.AddIsReadBack | internal/wnet/iwd/iwd.go:321-346 | the profile that an add answers with is the one read back under its id |
| IwdReads.AddAnswersSpec | internal/wnet/iwd/iwd.go:333-346 | the answer of an add carries the spec's SSID, flags, kind and kept addresses whenever the file can hold them, and never the passphrase |
| IwdReads.PatchIsReadBack | internal/wnet/iwd/iwd.go:321-404 | so is the one a patch answers with, and after a rename the old id reads as not found |
| IwdStore.EmptyPatchIsIdentity | internal/wnet/iwd/iwd.go:348-404 | an empty patch of a file that the backend wrote changes no byte of the directory |
| IwdStore.EmptyPatchNormalises | internal/wnet/iwd/iwd.go:348-404 | an empty patch of any file brings it to a form that a second one keeps |
| IwdStore.RunsStayCanonical | internal/wnet/iwd/iwd.go:333-412 | through any calls with any faults names stay canonical, no network has two files and foreign files are untouched |
| Uci.StaIfaces | internal/wnet/ubus/ubus.go:148-160 | the filter loop keeps exactly the station sections, in the order visited |
| Uci.KindRoundTripIff | internal/wnet/ubus/convert.go:227-251 | the security kind survives the uci encoding exactly if it is not enterprise |
| Uci.UciBoolRoundTrip | internal/wnet/ubus/convert.go:174-208 | a flag is read back from the option written for it |
| Uci.UciBoolIff | internal/wnet/ubus/convert.go:174-189 | a flag is set by exactly four words, in either case and with white space around them |
| Uci.EncKindIff | internal/wnet/ubus/convert.go:225-241 | which encryptions of other tools are open, which enterprise, and that all others are pre-shared keys |
| UbusStore.SectionNameInjective | internal/wnet/ubus/profile.go:12-18 | section names identify (SSID, kind) |
| UbusStore.FindStation | internal/wnet/ubus/profile.go:21-32 | the loop returns the first station whose derived id is the one asked for |
| UbusStore.FindByIdIff | internal/wnet/ubus/profile.go:21-32 | what is found is the station with that id that is visited first |
| UbusRefinement.StepKeepsNamed | internal/wnet/ubus/profile.go:80-218 | every prefix of every operation keeps the naming of stations in the staged and the committed config |
| UbusRefinement.RunsStayNamed | internal/wnet/ubus/profile.go:133-218 | in every run of requests, any of which may stop midway, names stay derived and no two stations share an id |
| UbusRefinement.LookupIsOrderFree | internal/wnet/ubus/profile.go:21-32 | with unique keys, lookup by id does not depend on the order in which Go iterates over the sections |
| UbusRefinement.AddRefinesUpsert | internal/wnet/ubus/profile.go:80-152 | where every station section has its derived name, add is an upsert of (SSID, kind) that keeps the stored key when it brings none, in the staged and committed config alike, and changes no other section |
| UbusRefinement.PatchRefinesMove | internal/wnet/ubus/profile.go:154-197 | where every station section has its derived name, patch moves or updates one entry and carries the stored key along, also across a rename |
| UbusRefinement.DeleteRefinesRemove | internal/wnet/ubus/profile.go:199-218 | where every station section has its derived name, delete removes one key, and is refused exactly for an absent one |
| UbusRefinement.ProfilesAreTheMap | internal/wnet/ubus/profile.go:39-49 | where every station section has its derived name, the listing shows every key of the map once, under distinct ids, as a profile with its SSID, kind and autoconnect flag and without passphrase, addresses or hidden flag |
| UbusWrites.AddWrites | internal/wnet/ubus/profile.go:78-152 | a completed add rewrites the station of that SSID and kind, or creates one, and no other section: which options it writes with which values, the network bound, the radio of a new section, and that every other option of a rewritten one stays |
| UbusWrites.PatchWrites | internal/wnet/ubus/profile.go:154-197 | the same for a patch, in place or across a rename, where the new section carries the stored key but nothing else of the old one |
| UbusWrites.AddAnswers | internal/wnet/ubus/convert.go:259-270 | an add answers with SSID, kind and flag of the spec and never with the passphrase |
| UbusWrites.PatchAnswers | internal/wnet/ubus/convert.go:259-270 | a patch answers with what it gives and with the stored SSID, kind and flag otherwise |
| UbusActivate.ActivateEffect | internal/wnet/ubus/conn.go:119-152 | the complete plan leaves staged and committed config equal to the activated config, whatever order the stations are visited in |
| UbusActivate.ActivatedTarget | internal/wnet/ubus/conn.go:147-152 | the target is enabled, its BSSID pin is set or cleared as asked, every other option is kept |
| UbusActivate.ActivatedIsExclusive | internal/wnet/ubus/conn.go:130-146 | the target ends as the only enabled station on its radio; access points, other radios and disabled stations are as staged; a rival loses only its flag |
| UbusActivate.ActivateIsAllOrNothing | internal/wnet/ubus/conn.go:119-152 | wherever an activation stops, the committed config is the old one or the activated one |
| UbusActivate.DeactivateEffect | internal/wnet/ubus/conn.go:184-196 | deactivation sets one flag of one section and commits |
| UbusActivate.DeactivateKeepsOptions | internal/wnet/ubus/conn.go:184-196 | every other option of that section stays |
| UbusBackend.Backend.PickRadio | internal/wnet/ubus/ubus.go:174-195 | the configured radio, or the first wifi-device in the order visited |
| UbusRefusals.FirstRadioMeaning | internal/wnet/ubus/ubus.go:174-195 | that wifi-device is the first one visited, and there is none only if no section is one |
| UbusBackend.Backend.WriteStation | internal/wnet/ubus/profile.go:78-120 | executes a prefix of the station plan, all of it on success, and cannot fail without a fault; what the plan writes is `UbusWrites.AddWrites` and `UbusWrites.PatchWrites` |
| UbusBackend.Backend.AddProfile | internal/wnet/ubus/profile.go:133-152 | is one step of the protocol; success means completed and read back; an error other than a remote failure, or any error without faults, is the reason of a refusal that changes nothing |
| UbusBackend.Backend.PatchProfile | internal/wnet/ubus/profile.go:154-197 | the same for a patch, renaming or in place |
| UbusBackend.Backend.DeleteProfile | internal/wnet/ubus/profile.go:199-218 | the same for a delete |
| UbusBackend.Backend.ListProfiles | internal/wnet/ubus/profile.go:39-49 | one profile per station, in the order visited |
| UbusBackend.Backend.Activate | internal/wnet/ubus/conn.go:119-160 | the same for an activation, which may also fail after its config has been committed |
| UbusBackend.Backend.Deactivate | internal/wnet/ubus/conn.go:184-196 | the same for a deactivation |
| UbusBackend.ActivateCommitsAllOrNothing | internal/wnet/ubus/conn.go:119-160 | any activation call, failed or not, leaves the committed config old or activated for a station with that id |
| UbusBackend.ActivateSuccess | internal/wnet/ubus/conn.go:119-160 | a successful call has staged and committed the activated config of a station with that id |
| UbusInterrupted.RepeatedActivationHeals | internal/wnet/ubus/conn.go:127-152 | wherever an activation stopped, completing it later commits exactly what the first one would have |
| UbusInterrupted.StoppedActivationLeaksIff | internal/wnet/ubus/conn.go:127-152 | after an activation that stopped among its rivals, any request, another activation included, commits what it would have committed alone exactly if it decides itself on every flag the stopped one had set |
| UbusInterrupted.ActivationHidesIff | internal/wnet/ubus/conn.go:127-146 | activating another station makes up for a stopped activation exactly if it is on the same radio or the flags set are its own |
| UbusInterrupted.StoppedIsPinned | internal/wnet/ubus/conn.go:147-152 | stopped before its commit, an activation has staged the whole activated config |
| UbusInterrupted.CommitsAllThatIsStaged | internal/wnet/ubus/profile.go:122-218 | a completed request of any kind commits every section that is not its own as it was staged; an activation's own ones are the stations on its radio |
| UbusRefusals.AddRefusedIff | internal/wnet/ubus/profile.go:62-152 | an add is refused exactly for an empty SSID (invalid), enterprise security or a manual address family (unsupported), or a new station on a node without radio, in that order of precedence |
| UbusRefusals.PatchRefusedIff | internal/wnet/ubus/profile.go:154-197 | a patch is refused exactly if no station has the id (not found), the result is unsupported, or it renames on a node without radio, in that order of precedence |
| UbusRefusals.LookupRefusedIff | internal/wnet/ubus/profile.go:199-208 | a delete, an activation and a deactivation are refused, as not found, exactly if no station has the id |
| UbusRefusals.RenameSurvivesIff | internal/wnet/ubus/profile.go:176-188 | after a renaming patch its new id is found exactly if the old section did not already have the new name, or another station has the new SSID and kind |
| UbusShared.AddOnSharedIff | internal/wnet/ubus/profile.go:80-152 | on a node whose stations have distinct keys under any names, add is that upsert exactly if it does not take the name of another profile's section |
| UbusShared.PatchOnShared | internal/wnet/ubus/profile.go:154-197 | there, a patch in place updates one entry, and a rename moves it if the section it writes is free for it and no other one has the new key |
| UbusShared.DeleteOnShared | internal/wnet/ubus/profile.go:199-218 | there, delete removes one key and is refused exactly for an absent one |
| UbusShared.ProfilesOnShared | internal/wnet/ubus/profile.go:39-49 | there, the listing shows every key of the map once |
| UbusShared.RenameKeepsUniqueIff | internal/wnet/ubus/profile.go:176-188 | a rename leaves two sections with one id exactly if a section other than the one it writes has the new key, and it does not drop the one it writes |
| UbusSession.StepKeepsInv | internal/wnet/ubus/client.go:180-259 | every step of every call keeps the protocol invariant |
| UbusSession.SessionSafety | internal/wnet/ubus/client.go:180-259 | in every interleaving each session id causes at most one relogin, logins succeed at most once more than ids were refused, one call logs in at a time, and each call sends at most two requests and two logins |
| UbusSession.RefreshedSessionIsKept | internal/wnet/ubus/client.go:193-204 | only the relogin for the very session that was refused ever clears the session |
| UbusSession.SucceedsIffAnswered | internal/wnet/ubus/client.go:231-259 | in every interleaving a call that has ended has succeeded exactly if its last answered request was answered well |
| UbusSession.EndsIff | internal/wnet/ubus/client.go:231-259 | a call ends exactly with an answer, a second refusal or a failed login of its own |
| UbusSession.RequestUsesSession | internal/wnet/ubus/client.go:180-250 | every request goes out under the session the client then has, and a retry never under the refused one |
| UbusSession.NoSessionIff | internal/wnet/ubus/client.go:180-229 | between logins the shared session is empty exactly if there was no login yet or the last answered one failed |
| UbusSession.EmptyRetryEntered | internal/wnet/ubus/client.go:193-250 | of all steps, the one into a retry without a session is the relogin entered after a failed login |
| UbusSession.EmptyRetryIff | internal/wnet/ubus/client.go:193-259 | a retry goes out without a session exactly if its call entered the relogin when the last answered login had failed; otherwise it carries an issued id |
| UbusSession.EmptyRetryHappens | internal/wnet/ubus/client.go:193-250 | a run of two calls in which the retry goes out without a session |
| UbusSession.Client.Login | internal/wnet/ubus/client.go:206-229 | stores the id of a good reply and leaves the session alone otherwise |
| UbusSession.Client.SessionID | internal/wnet/ubus/client.go:179-189 | takes the call through its first critical section of the protocol |
| UbusSession.Client.Relogin | internal/wnet/ubus/client.go:191-204 | takes the call through its second critical section |
| UbusSession.Client.Call | internal/wnet/ubus/client.go:231-259 | a whole call is a run of the protocol under the server's replies; it succeeds exactly if it has or gets a session and its request is answered well, at once or after one refusal under a new login |
| ScanCache.Cache.Get | internal/server/scan_cache.go:67-77 | answers with the interface's entry if it is fresh |
| ScanCache.Cache.PutScan | internal/server/scan_cache.go:110-129 | overwrites the interface's entry in place, or appends one |
| ScanCache.Cache.Put | internal/server/scan_cache.go:79-92 | memory is updated even if the write fails; the file then holds the whole cache or what it held before |
| ScanCache.Cache.WriteFileAtomic | internal/server/scan_cache.go:131-153 | replaces the file completely or not at all and leaves no temporary file, whichever step fails |
| ScanCache.Cache.KeepFresh | internal/server/scan_cache.go:53-58 | the in-place filter leaves the fresh entries, in order, at the front of the slice |
| ScanCache.Cache.Load | internal/server/scan_cache.go:36-65 | a missing file changes nothing, a corrupt one is reported and changes nothing |
| ScanCache.UpsertIsUpdate | internal/server/scan_cache.go:110-129 | the list stays free of duplicates and the upsert is a map update that moves no entry |
| ScanCache.FindIsLookup | internal/server/scan_cache.go:101-109 | the search is a map lookup |
| ScanCache.FreshOnlyMeaning | internal/server/scan_cache.go:53-58 | the filter keeps precisely the fresh entries of any list, as a subsequence |
| ScanCache.ReloadServesTheSame | internal/server/scan_cache.go:39-77 | from the loading time on, a reloaded cache answers every request as the saved one would |
| ScanCache.RestartIsTransparent | internal/server/scan_cache.go:39-92 | the same after any sequence of puts of which the last was saved, whatever list without duplicates the process had started from |
| ScanCache.LoadedIsUnique | internal/server/scan_cache.go:39-65 | a process that has loaded a file without duplicates starts from such a list |
| ScanCache.ReloadServesTheSameIff | internal/server/scan_cache.go:39-77 | for a list of any origin, a reload answers for an interface as before exactly if no stale first entry hides a fresh one |
| ScanServer.AccessPointServer.Scan | internal/server/access_point.go:56-84 | cache and response of one request; a cache write that fails does not fail the scan; without a cache every request goes to the radio or is rejected |
| ScanServer.ListIsLatest | internal/server/access_point.go:56-84 | in every run the list is the latest radio scan of each interface, once |
| ScanServer.RunServesLatest | internal/server/access_point.go:56-84 | every good response is that scan, and the radio is used exactly if there is none or it is older than the TTL; a request without an interface is invalid and changes nothing |
| ScanFile.StepKeepsFiles | internal/server/scan_cache.go:79-92 | puts outside the lock, failures, crashes and loads keep every temporary file a prefix of its own snapshot, whatever the codec and the initial file |
| ScanFile.FileIsAlwaysWhole | internal/server/scan_cache.go:131-153 | in every interleaving with crashes the file is the initial one or a whole cache as it stood right after some put |
| ScanFile.CachesAreUnique | internal/server/scan_cache.go:36-92 | every memory of every process holds one entry per interface if the initial file does |
| ScanFile.NoLitter | internal/server/scan_cache.go:131-153 | without crashes and failed removals no temporary file is left once every put is done |
| ScanFile.ReloadedCacheIsAMemory | internal/server/scan_cache.go:36-92 | after a crash and a reload the process serves what the cache served right after some put |
| Watch.EmitterIsStream | internal/wnet/iwd/iwd.go:604-630 | remembering the last state emits exactly the destuttered reports up to the first terminal one, and closes exactly there |
| Watch.StreamShape | internal/wnet/iwd/iwd.go:604-630 | no two neighbours of a stream are equal and a terminal state is only last |
| Watch.TerminalIsReported | internal/wnet/iwd/iwd.go:604-630 | a stream that ends ends with the terminal report itself, error included |
| WatchMeaning.StreamShowsIff | internal/wnet/iwd/iwd.go:604-630 | a state is in the stream exactly if a report with it comes no later than the first terminal one |
| Watch.IwdWatcher.Emit | internal/wnet/iwd/iwd.go:607-630 | state and output after one observation |
| Watch.IwdWatch | internal/wnet/iwd/iwd.go:600-654 | what is sent is the stream of the mapped observations |
| Watch.IwdIdleAfterAssociatingFails | internal/wnet/iwd/iwd.go:613-619 | after any association attempt idle is never reported, and turns into the failure that ends the stream |
| WatchMeaning.IwdShowsIff | internal/wnet/iwd/convert.go:65-78 | which station states make the watch report which state: connected exactly if `connected` or `roaming` comes before a fall from `connecting` to `disconnected` |
| Watch.NmWatch | internal/wnet/nmcli/backend.go:458-498 | what is sent is the stream of the polls before the first lookup error |
| Watch.NmFailureIsAuthIff | internal/wnet/nmcli/backend.go:414-425 | a watch that fails blames authentication exactly if a poll ever needed secrets or the final reason says so |
| WatchMeaning.NmShowsIff | internal/wnet/nmcli/backend.go:393-412 | which device state codes make the watch report which state, up to the first poll of 100 or 120 |
| WatchMeaning.NmBlamesAuthIff | internal/wnet/nmcli/backend.go:414-425 | a failure blames authentication exactly if code 60 was polled before or the reason mentions secrets or authentication in any case |
| Watch.UbusWatch | internal/wnet/ubus/conn.go:252-298 | what is sent is the stream of the polls judged against the deadline |
| Watch.UbusEndsByDeadline | internal/wnet/ubus/conn.go:266-285 | a poll after the deadline ends the stream, with a terminal report, at that poll or before it |
| WatchMeaning.UbusShowsIff | internal/wnet/ubus/conn.go:221-298 | which polls make the watch report which state: connected exactly if a poll up to the first one after 30 seconds finds the device up with the SSID and a real BSSID |
| WatchMeaning.FailuresAreUnknown | internal/wnet/ubus/conn.go:266-285 | no report but a failure carries an error, and that of iwd and ubus is the unknown one |
| Watch.WaitAssociated | internal/wnet/ubus/conn.go:162-182 | the wait succeeds exactly if some look finds the station up before a look after the deadline, and a look after the deadline always ends it |
| Watch.UpIffConnected | internal/wnet/ubus/conn.go:164-250 | the wait of an activation ends on exactly the runtime states that the status reports as connected |
| WatchMeaning.AssociatedIff | internal/wnet/ubus/convert.go:112-117 | a BSSID is real exactly if behind white space something else than the all-zero address begins |
| WatchMeaning.WaitsForOnline | internal/wnet/ubus/conn.go:162-182 | that is also what the wait of an activation looks for |
| Watch.PlaceholderIsNotUp | internal/wnet/ubus/convert.go:112-117 | the all-zero address of an idle device is never an association, whatever white space stands before it and whatever follows |
| NmSettings.WordRoundTrip | internal/wnet/nmdbus/convert.go:156-172 | every 32-bit word is read back from its dotted-decimal text, for either byte order |
| NmSettings.WordInMemory | internal/wnet/nmdbus/convert.go:156-165 | the bytes of the word in memory, in either byte order, are those of the address in network order |
| NmSettings.TextRoundTripIff | internal/wnet/nmdbus/convert.go:156-172 | an accepted address text comes back as the dotted decimal of its address, so as itself exactly if it is dotted decimal already |
| NmSettings.DnsVariant | internal/wnet/nmdbus/settings.go:50-75 | the loops encode the servers of the group's own family, in order: words for ipv4, 16 bytes each for ipv6, or nothing at all |
| NmSettings.IpSection | internal/wnet/nmdbus/settings.go:77-114 | builds the group of one address family |
| NmSettings.BuildSettings | internal/wnet/nmdbus/settings.go:116-147 | builds the connection dictionary |
| NmSettings.BuiltForNm | internal/wnet/nmdbus/settings.go:116-147 | type, mode, key management and passphrase that NetworkManager reads; the security group is there exactly for a pre-shared key |
| NmSettings.BuiltHasNoMore | internal/wnet/nmdbus/settings.go:116-147 | which groups and keys there are, and that there are no others |
| NmSettings.FamilyForNm | internal/wnet/nmdbus/settings.go:77-114 | method and gateway that NetworkManager reads; a family that is not manual has nothing but its method |
| NmSettings.EveryAddressIsTold | internal/wnet/nmdbus/settings.go:84-98 | every address that parses is in the dictionary as its text and prefix length |
| NmSettings.IpConfigFromSettings | internal/wnet/nmdbus/settings.go:149-196 | reads one address family back |
| NmSettings.ConfigReadBack | internal/wnet/nmdbus/settings.go:52-196 | a family comes back with its method, its parsable addresses of either family in canonical form and order, its gateway, its servers of the group's own family in canonical form, and its search domains |
| NmSettings.KeptIff | internal/wnet/nmdbus/settings.go:52-196 | the settings of a family come back unchanged exactly if addresses and servers are canonical and, unless manual, empty |
| NmSettings.ProfileReadBack | internal/wnet/nmdbus/settings.go:118-209 | SSID, defaulted name, flags and both families come back as kept, and the kind exactly if it is not enterprise |
| NmSettings.ForeignIsRead | internal/wnet/nmdbus/settings.go:149-209 | how a connection of another tool is read: unknown methods, key managements and missing flags |
| NmSettings.CanonicalAddressIff | internal/wnet/nmdbus/convert.go:147-154 | a printed address of either family is kept, host bits included, exactly if its prefix fits its notation |
| NmSettings.KeptAddressIsStableIff | internal/wnet/nmdbus/convert.go:147-154 | what was kept of an address is kept for good exactly unless it is IPv4-mapped with a prefix above 32 |
| NmSettings.MappedAddressIsLost | internal/wnet/nmdbus/convert.go:147-154 | every IPv4 address has such a text, for every prefix from 33 to 128 |
| NmTerse.SplitTerse | internal/wnet/nmcli/nm.go:57-77 | the index loop computes the specification of splitting |
| NmTerse.TerseRoundTrip | internal/wnet/nmcli/nm.go:57-77 | splitting undoes escaping and joining for every non-empty list of fields |
| NmTerse.AfterField | internal/wnet/nmcli/nm.go:57-77 | behind any field a backslash stands for the character after it, whatever that is, or for itself at the end of the line |
| NmTerse.ReprintIff | internal/wnet/nmcli/nm.go:57-77 | printing the fields of a line gives the line back exactly if its backslashes escape only `:` and backslashes |
| Exclude.NormalizeMac | internal/wnet/exclude.go:111-126 | keeps the hexadecimal digits, in lower case and in order |
| Exclude.WritesIff | internal/wnet/exclude.go:111-126 | the normal form of a text is the digits it writes, whatever their case and whatever stands between them |
| Exclude.NormalMacIff | internal/wnet/exclude.go:111-126 | a text is its own normal form exactly if it is made of digits and lower-case letters up to f |
| Exclude.NormalMacOfLower | internal/wnet/exclude.go:111-126 | case does not matter |
| Exclude.SeparatorsAreDropped | internal/wnet/exclude.go:111-126 | separators anywhere in an address do not matter |
| Exclude.MacRuleMatchesIff | internal/wnet/exclude.go:47-126 | a rule on the address hides exactly the interfaces whose address has the same digits, however both are written |
| Exclude.Matches | internal/wnet/exclude.go:47-71 | a rule matches exactly if it sets some field and every field it sets agrees |
| Exclude.NewExcludeSet | internal/wnet/exclude.go:82-98 | keeps exactly the effective rules, with exact hints of what they need |
| Exclude.Match | internal/wnet/exclude.go:100-109 | some rule of the set matches |
| Exclude.PciMatchIff | internal/wnet/exclude.go:128-141 | a PCI rule matches the address it spells in either case, or what stands behind a colon at its end, and nothing else |
| Exclude.PciBoundaryIff | internal/wnet/exclude.go:128-141 | a longer address that ends in the rule matches exactly if a colon sets the rule apart |
| Exclude.SingleRuleIff | internal/wnet/exclude.go:47-71 | a rule on the name hides exactly that name, one on the PCI address exactly the addresses that match |
| Exclude.FieldsAreJoined | internal/wnet/exclude.go:10-13 | a rule hides exactly what each field it sets would hide alone, and nothing without fields |
| Exclude.RulesAreAlternatives | internal/wnet/exclude.go:100-109 | a list hides exactly what some rule of it would hide |
| Exclude.ShortcutSoundIff | internal/wnet/exclude.go:168-189 | deciding by name alone is right for a rule exactly unless its MAC holds no digit and it sets no PCI address |
| Exclude.ShortcutImpliesFull | internal/wnet/exclude.go:168-189 | for validated rules the name shortcut never claims more than a full match |
| Exclude.Filtered.ExcludedName | internal/wnet/exclude.go:168-189 | the two stages decide by the resolved interface, or by the bare name if it cannot be resolved, and exactly when that is the verdict of a full match |
| Exclude.GuardIsFullIff | internal/wnet/exclude.go:168-189 | the guard's verdict is the full match exactly unless the lookup fails of an interface that is excluded by more than its name |
| Exclude.SlipHappens | internal/wnet/exclude.go:184-187 | every interface that a MAC or PCI rule excludes slips through while its lookup fails |
| Exclude.Filtered.Interfaces | internal/wnet/exclude.go:191-204 | lists what the backend without the hidden interfaces would list |
| Exclude.Filtered.Interface | internal/wnet/exclude.go:206-221 | looks up as that backend would, and passes a failing lookup on unless the bare name is excluded |
| Exclude.Filtered.Connections | internal/wnet/exclude.go:244-257 | lists the connections the guard lets through, which are those of that backend exactly if none slips through |
| Exclude.Filtered.Connection | internal/wnet/exclude.go:259-268 | looks a connection up as that backend would, exactly unless it slips through |
| Exclude.Filtered.VisibleConnection | internal/wnet/exclude.go:270-282 | admits exactly the connections the guard lets through |
| Exclude.Filtered.Admit | internal/wnet/exclude.go:223-242 | rejects exactly the names the guard recognises as hidden |
| Exclude.RemovedAgrees | internal/wnet/exclude.go:143-150 | the filtered backend's lookups agree with its listing, which shows exactly the interfaces no rule matches |
| Exclude.NoConnectionOnHiddenInterface | internal/wnet/exclude.go:143-150 | no visible connection is bound to a hidden interface |
| Exclude.RemovedTwice | internal/wnet/exclude.go:143-150 | hiding twice is hiding once, for listings and lookups of interfaces and connections alike |
| Tui.ClampIsNearest | internal/tui/model.go:140-198 | clamping into the interval of acceptable windows is the least scrolling that shows the cursor with its margin |
| Tui.AcceptableIff | internal/tui/model.go:140-198 | the windows that show the cursor with context ahead form exactly that, non-empty, interval |
| Tui.FiveRowsAhead | internal/tui/model.go:140-198 | after a move at least five rows, or as many as screen and list have, stand between the cursor and the edge it moves to |
| Tui.FiveRowsSuffice | internal/tui/model.go:140-198 | a window that has them stays where it is, and one that has not moves until it has exactly so many |
| Tui.Model.Scroll | internal/tui/model.go:140-198 | the cursor is clamped, and the window is the nearest acceptable one: in range, cursor visible, min(5, rows-1, remaining) rows ahead |
| Tui.Model.TriggerScan | internal/tui/model.go:105-123 | starts a scan unless one is in flight, and drops the list only when it starts one |
| Tui.ScansHaveMoved | internal/tui/model.go:204-281 | for every message, which interface is selected after it and whether a scan is under way |
| Tui.StuckIff | internal/tui/model.go:110-123 | in every run, the model waits for a result that will not come exactly if a result for an interface no longer selected was dropped |
| Tui.StuckForGood | internal/tui/model.go:110-123 | from then on it waits for good, and starts no scan |
| Tui.TabDuringScanSticks | internal/tui/model.go:268-276 | switching the interface while the first one is scanned is enough |
| Tui.Model.ApplyScan | internal/tui/model.go:283-314 | installs the sorted list, with the cursor on the previously selected id if it is there and clamped otherwise |
| Tui.FollowsIff | internal/tui/model.go:283-314 | with distinct ids the cursor ends on the access point that was selected, wherever the scan moved it, and else stays as far as the list goes |
| Tui.Model.HandleKey | internal/tui/model.go:316-352 | effect of every key on selection, list, cursor and window |
| Tui.Model.Update | internal/tui/model.go:204-281 | effect of every message, keeping the cursor in range and on screen and moving neither cursor nor window but where stated |
| Tui.Model.Run | internal/tui/model.go:204-281 | through every sequence of messages the cursor stays in range and on screen and the window within the list |
| Tui.SortIsTheOnlyStableOrder | internal/tui/model.go:286-296 | the sorted list is the only descending arrangement that is a stable permutation of the items |
| Tui.DrawnWindowIsViewport | internal/tui/view.go:164-198 | what the table draws starts at the scroll position and includes the cursor, so its own correction never fires |

## Left out

- HTTP, JSON-RPC, D-Bus, subprocess, sysfs, gRPC and protobuf mechanics: each remote or file operation is a step that may fail; payload decoding is not modelled.
- The spellings of IPv6 addresses: which texts are accepted and which one is canonical is left to the pair named above. Addresses of the ipv6 section of an iwd file are plain text there too.
- Unicode: trimming and case folding are those of ASCII, and a MAC is scanned byte by byte.
- The line-length limit of the line scanner, and directories or unreadable files inside the iwd store.
- uci options that arrive as JSON lists or booleans: options are strings.
- Other clients of the uci config between a read and a write of the same operation.
- The status fields besides state and error (signal, BSSID, addresses).
- Cancellation of a watch, and the lookup before its first observation.
- Saturation of Go's time differences.
- Watch.UbusEndsByDeadline: says that a poll after the deadline ends the stream, not that such a poll happens, because the clock is an input.
- ScanFile.FileIsAlwaysWhole: does not say that the file equals the memory after concurrent puts, because the code does not order their renames.
- UbusRefusals.RenameSurvivesIff: is about the two writes in a row; a rename that stops between them leaves both sections, which the naming invariant allows.
- UbusInterrupted.StoppedActivationLeaksIff: is about stops among the rivals; for the stop between the pin and its commit, StoppedIsPinned and CommitsAllThatIsStaged say what is staged and that it is committed, section by section.
- Tui.Model.ApplyScan: the list is a value, so that sorting the slice of the message in place is not visible to its sender.
- Drawing, colours, the spinner, the status line and the profile panel of the terminal UI; only the bounds of its list window are modelled.
- Enterprise security beyond its rejection, quality and key-management conversions, configuration loading, telemetry and the command line.
