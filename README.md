# androidmanifest-changer, modelled in Dafny

The tool rewrites the version code, version name and package name in the
compiled (protobuf) `AndroidManifest.xml` of an Android App Bundle (`.aab`),
an `.apk` (after `aapt2` converts it to the proto format) or a bare compiled
manifest file. This project models its core in `main.go`:

- `decimal.dfy` (module `Decimal`): Go's `uint` flag value, the `int32(...)`
  conversion that wraps it modulo 2^32, and the decimal text `fmt.Sprint`
  prints for an `int32`, with a parser as its partner.
- `manifest.dfy` (module `Manifest`): the attribute patcher of
  `updateManifest`. `PatchAttr` specifies what one iteration does to one
  attribute (namespace URI, name, string value, compiled item, where the
  compiled item may be a primitive whose int-decimal case is the one
  rewritten). The classes `XmlNode`, `XmlElement` and `XmlAttribute` hold the
  decoded tree; `XmlAttribute.Apply` and `UpdateManifest` update the attribute
  objects in place and are proved against `PatchAttr`. Attribute objects need
  not be distinct: because patching is idempotent, visiting one object twice
  gives the same result.
- `archive.dfy` (module `Archive`): a zip archive as an ordered sequence of
  `(name, content)` entries; `findFile`, `extractFromZip` and
  `addToZipNative`. The rewriter goes through a Go map, so the model lets the
  second loop pick the next key nondeterministically and proves its
  properties for every order.
- `dispatch.dfy` (module `Dispatch`): the choice of manifest path from the
  input file's suffix.
- `wrappers.dfy` (module `Wrappers`): `Option`, `Result` and the
  `EntryNotFound` error.

`addToZipNative` does not behave like a plain entry replacement; the model
follows the code:

- The rewriter does not keep the original entry order: the copies come out in
  Go map iteration order and the replaced entry is always written last.
- Entries with the same name collapse to one, carrying the content of the
  last of them. The output holds one entry per distinct input name other than
  the target, plus the target; so with distinct input names the count stays
  the same exactly when the target already exists.
- A target entry absent from the archive is not an error: it is added.
- A missing archive is not an error either: the output is the new entry alone.

## Model

| member | source | states |
|---|---|---|
| `Decimal.ToInt32` | main.go:42 | the converted value is an int32 congruent to the flag value modulo 2^32, and equal to it below 2^31 |
| `Decimal.ToInt32Positive` | main.go:42 | the converted code is positive exactly when the low 32 bits are non-zero with the sign bit clear; a multiple of 2^32 becomes 0 |
| `Decimal.ToInt32WrapExamples` | main.go:42 | 2^32+5 becomes 5, 2^31 becomes -2^31, 2^32 becomes 0, 2^32-1 becomes -1 |
| `Decimal.Digits` | main.go:158 | the decimal digits of a number: non-empty, only digits, no leading zero |
| `Decimal.DigitsRoundTrip` | main.go:158 | reading back the digits gives the number |
| `Decimal.FormatInt32` | main.go:158 | the text is non-empty, starts with `-` exactly for negatives, is all digits otherwise, and has no leading zero (the only text starting with `0` is "0", and no `-0...`) |
| `Decimal.FormatParseRoundTrip` | main.go:158 | parsing the printed text gives back the int32 |
| `Decimal.FormatInjective` | main.go:158 | two codes print the same text exactly when they are equal |
| `Decimal.FormatExamples` | main.go:158 | 42 prints as "42", 5 as "5", -7 as "-7" |
| `Manifest.ConfigFromFlags` | main.go:41-45 | the configuration keeps the name and package strings and holds the code modulo 2^32 |
| `Manifest.PatchAttr` | main.go:139-166 | namespace and name never change; non-target attributes are untouched; `package` with empty namespace gets the package name when one is given; android `versionName` gets the version name when one is given; android `versionCode` is untouched unless the code is positive, and then its int-decimal primitive becomes the code (other items stay), a non-empty string value becomes the code's decimal text and an empty one stays empty |
| `Manifest.PatchAttrIdempotent` | main.go:139-166 | patching a patched attribute again changes nothing |
| `Manifest.PatchAllIdempotent` | main.go:138-167 | applying the same configuration twice gives the same attribute list as applying it once |
| `Manifest.PatchAllKeepsShape` | main.go:138-167 | number, order, namespace URIs and names of the attributes are kept |
| `Manifest.PatchAllUnsetIsIdentity` | main.go:138-167 | with no package, no version name and a non-positive code, the list is unchanged |
| `Manifest.WrappedVersionCodeIgnored` | main.go:149-160 | a flag value whose low 32 bits are zero or have the sign bit set leaves `versionCode` unchanged |
| `Manifest.PatchMakesCodeConsistent` | main.go:149-160 | after a positive code is applied, `versionCode`'s int-decimal value and non-empty text denote the same number, the requested one |
| `Manifest.PatchKeepsCodeConsistent` | main.go:138-167 | patching never breaks agreement between the typed and textual version code |
| `Manifest.PatchExample` | main.go:138-167 | package "com.example.old", code 5/"5", name "1.0" become "com.example.new", 42/"42", "2.0.1"; an unrelated attribute is untouched |
| `Manifest.XmlAttribute.Apply` | main.go:139-166 | the attribute object's new contents are `PatchAttr` of its old contents |
| `Manifest.UpdateManifest` | main.go:138-167 | every root attribute object ends as `PatchAttr` of its old contents; the node, element, attribute list and children are not modified; a node without an element has nothing patched |
| `Archive.FindFile` | main.go:118-126 | the result is the first index whose name equals the requested name exactly, and none exactly when no entry has that name |
| `Archive.ExtractFromZip` | main.go:95-116 | a missing entry gives `EntryNotFound`; otherwise the content of the first entry of that name |
| `Archive.LastWinsAt` | main.go:196-214 | the copy map holds exactly the names other than the target, each with the content of the last entry of that name |
| `Archive.CollectExisting` | main.go:196-214 | the first loop builds exactly that copy map |
| `Archive.EmitExisting` | main.go:228-238 | the second loop writes each map key once with its value and nothing else, in any order |
| `Archive.CopiesComeFromInput` | main.go:196-238 | every copied entry is the last input entry of its name and is not the target |
| `Archive.InputNamesCopied` | main.go:196-238 | every input name other than the target is copied |
| `Archive.CopyNames` | main.go:196-238 | the copied names are exactly the input names minus the target |
| `Archive.CopyCount` | main.go:196-238 | with distinct input names, one copy per input entry not named like the target |
| `Archive.DistinctNameSetSize` | main.go:196-214 | a list with distinct names has as many names as entries |
| `Archive.AddToZip` | main.go:184-250 | the new entry is last and the only one with its name; names are distinct; each other entry is the last input entry of its name; every other input name appears; no archive gives just the new entry; the output has one entry per distinct non-target input name plus one, so with distinct input names the count is unchanged when the target existed and one more otherwise |
| `Archive.DuplicateNamesCollapse` | main.go:213 | two entries of one name collapse to the later one |
| `Dispatch.ContainerOf` | main.go:49-55 | `.apk` paths are apks, `.aab` paths are bundles, everything else is a bare manifest |
| `Dispatch.ManifestEntry` | main.go:70-79 | apks and bundles have a manifest entry and a bare manifest has none; the two paths themselves are fixed by its definition and stated in `Dispatch.DispatchExamples` |
| `Dispatch.SuffixesExclusive` | main.go:49-52 | no path ends in both `.apk` and `.aab` |
| `Dispatch.DispatchExamples` | main.go:49-79 | concrete paths select the expected manifest entry |

## Left out

- Protobuf decoding and encoding (`proto.Unmarshal`, `MarshalVT`): generated code that is not part of this model; the patcher starts from decoded objects and stops before re-encoding. Attribute fields other than namespace URI, name, value and compiled item, and everything of the element besides its attribute and child lists, are not modelled.
- Zip I/O: compression, storage metadata, reading, writing, `os.Stat`, `os.Create`, `io.Copy`, `Seek` and temporary files. An entry is its name and uncompressed content; the failure paths of these calls (each a `log.Fatal`) are not modelled, except the missing-entry case of `extractFromZip`.
- The `aapt2` conversions in `updateApk`: an external process.
- The glue functions `updateApk`, `updateAab` and `updateManifestPbInZip`: they only pass files between the stages above and the opaque encoder, so each stage is modelled on its own.
- Flag parsing, the usage error, and the before/after lines printed to standard output.
