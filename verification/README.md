# kikuchipy core in Dafny

A Dafny model of two parts of kikuchipy, a Python library for electron
backscatter diffraction (EBSD).

- **The kinematical Kikuchi pattern simulator.**
  - `calculate_master_pattern` checks its reflectors. It dispatches on the `hemisphere` and `scaling` options, then classifies every (pixel, reflector) pair as lying on the reflector's zone line, inside its Kikuchi band, or outside. Each pixel sums the weighted intensities (`_get_pattern`).
  - `on_detector` culls the reflectors that no crystal orientation puts on the detector side of the sphere (`_get_coordinates_in_upper_hemisphere`). It derives zone axes as the non-zero, de-duplicated cross products of the surviving reflectors, then culls those in turn.
- **The generic h5ebsd reader.**
  - `_hdf5group2dict` reads a group's datasets into a dictionary.
  - The reader finds the scan groups of a file, reads the manufacturer and version from the top group, and decides whether the file is a supported h5ebsd file (`check_file`).
  - `get_desired_scan_groups` picks the scan groups a caller names.

Modules, one concept each:

| module | file | models |
|---|---|---|
| `Results` | results.dfy | `Option` and `Result` (a raised exception is an `Err`) |
| `Seqs` | seqs.dfy | numpy boolean masks: `np.sum(mask)`, `xs[mask]` |
| `Indices` | indices.dfy | integer index triplets, `np.cross`, the row order of `np.unique(axis=0)` |
| `Reflectors` | reflectors.dfy | reflectors with optional structure factor and Bragg angle |
| `ZoneAxes` | zone_axes.dfy | the zone-axis derivation of `on_detector` |
| `MasterPattern` | master_pattern.dfy | `calculate_master_pattern`, `_get_pattern`, the `_raise_if_no_*` checks |
| `Visibility` | visibility.dfy | `_get_coordinates_in_upper_hemisphere` and the culling of `on_detector` |
| `Detector` | detector.dfy | `on_detector` |
| `Hdf5` | hdf5.dfy | an HDF5 file as a tree of named links; `str.lstrip`, `str.lower`, Latin-1 |
| `GroupDict` | group_dict.dfy | `_hdf5group2dict` and Python `dict` assignment |
| `H5ebsd` | h5ebsd_reader.dfy | `H5EBSDReader`: scan groups, header, `check_file`, `get_desired_scan_groups` |

The geometry is taken as given, as function-valued parameters. This covers:
- the dot products and `arccos` of the master pattern;
- the projection of a reflector or a zone axis into the detector frame;
- the Miller reduction of zone axes to smallest integers.

The properties are proved about everything built on top of those parameters.

Where the code and its documentation disagree, the model follows the code:
- A reflector set whose first reflector lacks a Bragg angle or structure factor raises `ValueError` (lines 424-437). Only element `[0]` is checked. A later missing value fails in the arithmetic.
- The `scaling` docstring offers the string `"None"`, but the code tests `scaling is None`. So the string `"None"` is rejected as an unknown scaling.
- The `scaling` docstring (lines 101-105) defines the intensities per reflector: abs(F) for "linear" and abs(F)² for "square". It says nothing about whole patterns. The model proves the per-reflector relation. It also shows that a one-reflector pattern under "square" is not the square of the "linear" one on an exact zone line, because the half weight is applied after scaling.
- `check_file` documents an IOError for a file without manufacturer. The code raises AttributeError instead (see Findings). This is the one code-versus-documentation disagreement where the model follows the documentation: `CheckFileAsWritten` is the code, and the corrected `CheckFile` is the one the reader constructor uses.

## Model

| member | source | states |
|---|---|---|
| MasterPattern.ParseHemisphere | kikuchipy/simulations/kikuchi_pattern_simulator.py:118-127 | accepted exactly when the argument is "north", "south" or "both", naming the hemisphere returned; anything else (None included) is the unknown-hemisphere error |
| MasterPattern.Poles | kikuchipy/simulations/kikuchi_pattern_simulator.py:118-123 | the north pole is -1 and the south pole 1: "north" gives [-1], "south" gives [1], "both" gives [-1, 1] in that order |
| MasterPattern.ParseScaling | kikuchipy/simulations/kikuchi_pattern_simulator.py:129-139 | accepted exactly for "linear", "square" and Python None, naming the scaling returned; any other value, the string "None" included, is the unknown-scaling error |
| MasterPattern.LinearIntensity | kikuchipy/simulations/kikuchi_pattern_simulator.py:129-130 | the linear intensity is the non-negative root of abs(F)² |
| MasterPattern.SquareIntensity | kikuchipy/simulations/kikuchi_pattern_simulator.py:131-133 | abs(F · conj F) is exactly abs(F)² and non-negative |
| Reflectors.MulConjugateIsNorm2 | kikuchipy/simulations/kikuchi_pattern_simulator.py:131-133 | F · conj F has zero imaginary part and real part abs(F)² |
| MasterPattern.SquareIsLinearSquared | kikuchipy/simulations/kikuchi_pattern_simulator.py:101-106 | per reflector, the "square" intensity is the "linear" intensity squared |
| MasterPattern.Intensities | kikuchipy/simulations/kikuchi_pattern_simulator.py:129-139 | fails exactly when a scaled option meets a reflector without structure factor; otherwise one non-negative intensity per reflector, equal to abs(F), abs(F)² or 1 as chosen |
| MasterPattern.BraggAngles | kikuchipy/simulations/kikuchi_pattern_simulator.py:143 | available exactly when every reflector has a Bragg angle, and then they are those angles in order |
| MasterPattern.Classify | kikuchipy/simulations/kikuchi_pattern_simulator.py:168-171 | a pair is on the zone line iff abs(dp) ≤ 1e-7, in the band iff π/2 − θ ≤ angle ≤ π/2 and not on the zone line, otherwise outside; the three cases are exclusive |
| MasterPattern.GetPattern | kikuchipy/simulations/kikuchi_pattern_simulator.py:440-464 | one value per pixel: half the sum of the intensities mask1 selects plus the sum of those mask2 selects; the loops produce exactly the buffer each hemisphere of the master pattern is made of |
| MasterPattern.PixelValueIsWeightedSum | kikuchipy/simulations/kikuchi_pattern_simulator.py:461-463 | a pixel equals the sum over reflectors of weight × intensity, the weight being 1/2 on the zone line, 1 in the band and 0 outside |
| MasterPattern.PixelValueBounds | kikuchipy/simulations/kikuchi_pattern_simulator.py:461-463 | with non-negative intensities and disjoint masks a pixel lies between 0 and the total intensity, and is 0 where no mask selects anything |
| MasterPattern.ZoneMasks | kikuchipy/simulations/kikuchi_pattern_simulator.py:162-168 | mask1 holds for a (pixel, reflector) pair exactly when abs(dp) ≤ 1e-7 |
| MasterPattern.MasksDisjoint | kikuchipy/simulations/kikuchi_pattern_simulator.py:168-171 | no (pixel, reflector) pair is in both mask1 and mask2 |
| MasterPattern.BandMasks | kikuchipy/simulations/kikuchi_pattern_simulator.py:162-171 | mask2 holds exactly when π/2 − θ ≤ arccos(dp) ≤ π/2 and the pair is not on the zone line |
| MasterPattern.HemispherePattern | kikuchipy/simulations/kikuchi_pattern_simulator.py:157-176 | one value per pixel of the hemisphere, each the sum over reflectors of the intensity weighted by how the reflector meets that pixel (1/2 on the zone line, 1 in the band, 0 outside) |
| MasterPattern.CalculateMasterPattern | kikuchipy/simulations/kikuchi_pattern_simulator.py:112-190 | errors in the code's order: no reflectors, first Bragg angle missing, first structure factor missing, unknown hemisphere, unknown scaling, then a later missing structure factor (when scaled) before a later missing Bragg angle; succeeds exactly when there are reflectors, both options are valid, every Bragg angle is present and every structure factor is present unless unscaled; on success a size = 2·half_size+1 square per hemisphere with shape (2, size, size) for "both" and (size, size) otherwise |
| MasterPattern.MasterPatternPixels | kikuchipy/simulations/kikuchi_pattern_simulator.py:115-190 | on success, pixel p of the layer for pole i is the sum over reflectors k of intensity k weighted by the class (zone line, band, outside) of dot(pole i, p, k) and its arccos against θ_k |
| MasterPattern.BothStacksNorthAndSouth | kikuchipy/simulations/kikuchi_pattern_simulator.py:118-177 | when "both" succeeds, "north" and "south" with the same arguments also succeed, and the "both" layers are the north layer followed by the south layer |
| MasterPattern.MasterPatternBounded | kikuchipy/simulations/kikuchi_pattern_simulator.py:157-190 | every master-pattern pixel lies between 0 and the sum of all reflector intensities |
| MasterPattern.SingleReflectorSquareVersusLinear | kikuchipy/simulations/kikuchi_pattern_simulator.py:101-106 | for one reflector, the "square" pattern is the "linear" pattern squared off the zone line, and differs from it on the zone line whenever F ≠ 0 |
| Visibility.InAPattern | kikuchipy/simulations/kikuchi_pattern_simulator.py:467-476 | an item is in a pattern iff some orientation has it in the upper hemisphere |
| Visibility.VisibleMask | kikuchipy/simulations/kikuchi_pattern_simulator.py:467-476 | an item is kept iff some orientation projects it to z > 0 |
| Visibility.Visible | kikuchipy/simulations/kikuchi_pattern_simulator.py:250-260 | the surviving items are the masked items in order, each seen by some orientation |
| Visibility.Cull | kikuchipy/simulations/kikuchi_pattern_simulator.py:250-260 | keeps, in order, exactly the items some orientation sees, with each one's projected coordinates and per-orientation upper-hemisphere flag |
| Visibility.CullIsColumnRestriction | kikuchipy/simulations/kikuchi_pattern_simulator.py:251-255 | the culled tables are the full coordinate and mask tables with the invisible columns removed |
| Visibility.CullKeepsExactlyVisible | kikuchipy/simulations/kikuchi_pattern_simulator.py:250-260 | an item survives culling iff some orientation sees it |
| Visibility.CullOfRepeatedOrientation | kikuchipy/simulations/kikuchi_pattern_simulator.py:467-476 | repeating an orientation does not change which items are kept |
| Indices.CrossOrthogonalToFactors | kikuchipy/simulations/kikuchi_pattern_simulator.py:266 | a cross product is orthogonal to both of its factors |
| Indices.LexLessStrictTotal | kikuchipy/simulations/kikuchi_pattern_simulator.py:268 | the row order of np.unique is a strict total order |
| ZoneAxes.PairsMembership | kikuchipy/simulations/kikuchi_pattern_simulator.py:266 | the pairwise product list holds exactly the cross products of two listed reflectors |
| ZoneAxes.DropZero | kikuchipy/simulations/kikuchi_pattern_simulator.py:267 | exactly the non-zero triplets survive |
| ZoneAxes.Unique | kikuchipy/simulations/kikuchi_pattern_simulator.py:268 | strictly ascending rows with the same elements as the input |
| ZoneAxes.StrictlySortedUnique | kikuchipy/simulations/kikuchi_pattern_simulator.py:268 | two strictly sorted lists with the same elements are equal, so the unique list is determined by its element set |
| ZoneAxes.DeriveCharacterised | kikuchipy/simulations/kikuchi_pattern_simulator.py:266-268 | a triplet is a zone axis iff it is non-zero and the cross product of two reflectors, and then it is orthogonal to both; the list is strictly sorted, so duplicate-free |
| ZoneAxes.TwoReflectorsGiveOneZone | kikuchipy/simulations/kikuchi_pattern_simulator.py:266-268 | two non-parallel reflectors give exactly the zone axis c = a × b and its opposite, in ascending order |
| Detector.VisibleReflectors | kikuchipy/simulations/kikuchi_pattern_simulator.py:250-260 | the kept reflectors are exactly the reflectors the visibility mask selects, in their original order; they line up with the culled line indices, and every reflector some orientation sees is kept |
| Detector.VisibleZoneAxes | kikuchipy/simulations/kikuchi_pattern_simulator.py:265-295 | the surviving zone axes are exactly the reduced derived axes some orientation sees, in the reduced list's order; each carries its detector coordinates and upper-hemisphere flag for every orientation |
| Detector.OnDetector | kikuchipy/simulations/kikuchi_pattern_simulator.py:200-324 | the lines are the reflector indices culled under the reciprocal projection, and the zone axes are the reduced derivation from those lines culled under the direct projection; the kept reflectors are exactly those some orientation sees, aligned with the line indices; every visible reduced zone axis is kept |
| Detector.ZoneAxesFromVisibleReflectors | kikuchipy/simulations/kikuchi_pattern_simulator.py:259-295 | without reduction, every zone axis in the result is a non-zero cross product of two visible reflectors and orthogonal to both |
| Hdf5.LStrip | kikuchipy/io/plugins/_h5ebsd.py:68 | lstrip removes exactly the leading run of stripped characters: every removed character is stripped, and the result does not start with one |
| Hdf5.LStripIsSuffix | kikuchipy/io/plugins/_h5ebsd.py:68 | what lstrip keeps is a tail of the input, so only a prefix is removed |
| Hdf5.LowerIdempotent | kikuchipy/io/plugins/_h5ebsd.py:208-213 | lower-casing twice equals lower-casing once |
| Hdf5.Latin1Decode | kikuchipy/io/plugins/_h5ebsd.py:69-70 | each byte becomes the character with the same code point |
| Hdf5.Latin1RoundTrip | kikuchipy/io/plugins/_h5ebsd.py:69-70 | Latin-1 decoding and encoding are inverse to each other |
| GroupDict.Put | kikuchipy/io/plugins/_h5ebsd.py:83 | after assignment the key maps to the new value and every other entry is unchanged; an existing key keeps its position, a new key is appended; keys stay unique |
| GroupDict.ReadDataset | kikuchipy/io/plugins/_h5ebsd.py:63-70 | a one-element array is unwrapped and only then is the key stripped of leading whitespace; other keys are kept; bytes become Latin-1 text; the value is never bytes |
| GroupDict.Lookup | kikuchipy/io/plugins/_h5ebsd.py:83 | a key gives nothing iff the dictionary lacks it, and otherwise an item stored under it |
| GroupDict.LookupPut | kikuchipy/io/plugins/_h5ebsd.py:83 | after `d[key] = item` the key gives the item and every other key what it gave before |
| GroupDict.AddLink | kikuchipy/io/plugins/_h5ebsd.py:61-83 | the keys afterwards are the old ones plus the link's key unless the link is skipped; that key now gives the link's prepared item (decoded dataset value, nested dictionary when recursing, else the subgroup) and every other key what it gave before |
| GroupDict.AddLinkPlaces | kikuchipy/io/plugins/_h5ebsd.py:61-83 | a skipped link leaves the dictionary unchanged; an existing key keeps every position; a new key is appended with the link's item |
| GroupDict.AddLinkWritten | kikuchipy/io/plugins/_h5ebsd.py:63-83 | an iteration keeps the reading invariant: no bytes values, no listed names, nested dictionaries exactly when recursing |
| GroupDict.GroupToDict | kikuchipy/io/plugins/_h5ebsd.py:32-84 | the keys afterwards are exactly the given ones plus those the links are written under; no listed dataset name is written, no value is bytes, subgroups become nested dictionaries exactly when recursing |
| GroupDict.GroupToDictUnwritten | kikuchipy/io/plugins/_h5ebsd.py:61-84 | a key no link is written under keeps the value it had in the given dictionary |
| GroupDict.GroupToDictLastWrite | kikuchipy/io/plugins/_h5ebsd.py:61-84 | a key's value is the prepared item of the last link written under it |
| GroupDict.GroupToDictOrder | kikuchipy/io/plugins/_h5ebsd.py:61-84 | the given keys keep their positions, and the new keys follow in the order of the first link written under each |
| H5ebsd.ScanGroups | kikuchipy/io/plugins/_h5ebsd.py:216-230 | the scan groups are the top-level links to groups, in file order, with absolute paths |
| H5ebsd.ScanGroupsComplete | kikuchipy/io/plugins/_h5ebsd.py:216-230 | no top-level group is missed |
| H5ebsd.ScanGroupNames | kikuchipy/io/plugins/_h5ebsd.py:156-159 | one name per scan group, in order: its path with the leading slashes removed |
| H5ebsd.ScanGroupNamesAreLinkNames | kikuchipy/io/plugins/_h5ebsd.py:156-159 | the scan group names are the groups' link names, the leading slash removed |
| H5ebsd.Child | kikuchipy/io/plugins/_h5ebsd.py:178-181 | a path step finds nothing iff no link has the name, and otherwise the node of the first link with that name |
| H5ebsd.HasEbsdData | kikuchipy/io/plugins/_h5ebsd.py:178-181 | a scan group has EBSD data iff its first link named EBSD is a group that links both a Data and a Header |
| H5ebsd.ReadHeader | kikuchipy/io/plugins/_h5ebsd.py:197-214 | AttributeError exactly when a manufacturer or version key holds a non-string; otherwise each is absent iff no key matches case-insensitively, and is the lower-cased value of the last matching key |
| H5ebsd.ManufacturerVersion | kikuchipy/io/plugins/_h5ebsd.py:197-214 | only an AttributeError can be raised; otherwise the manufacturer (version) is absent exactly when no top-level link is read under a key that lower-cases to "manufacturer" ("version" or "format version") |
| H5ebsd.NoKeyInFile | kikuchipy/io/plugins/_h5ebsd.py:209-213 | the top group's dictionary has no key of a kind iff no top-level link is read under such a key |
| H5ebsd.HeaderIsLowerCase | kikuchipy/io/plugins/_h5ebsd.py:208-213 | the manufacturer and version read are already lower case |
| H5ebsd.CheckFileAsWritten | kikuchipy/io/plugins/_h5ebsd.py:161-195 | as written, a readable file without manufacturer raises AttributeError |
| H5ebsd.CheckFile | kikuchipy/io/plugins/_h5ebsd.py:161-195 | accepted iff manufacturer and version are present, some scan group has EBSD/Data and EBSD/Header, and the manufacturer is supported; otherwise an IOError whose reason is the last one found: unsupported manufacturer, else no EBSD group, else header unreadable |
| H5ebsd.CheckFileAgreesWithManufacturer | kikuchipy/io/plugins/_h5ebsd.py:161-195 | the as-written and the corrected check agree on every file that names a manufacturer |
| H5ebsd.MissingManufacturerCounterexample | kikuchipy/io/plugins/_h5ebsd.py:186-187 | on a file with an EBSD scan group and a version but no manufacturer, the code as written raises AttributeError where the documented IOError is meant |
| H5ebsd.OpenReader | kikuchipy/io/plugins/_h5ebsd.py:145-151 | a reader opens exactly when the corrected check passes, with that check's error otherwise; its manufacturer is then a supported one and the patterns-dataset lookup returns that manufacturer's name |
| H5ebsd.OpenReaderAsWritten | kikuchipy/io/plugins/_h5ebsd.py:145-151 | the reader opens exactly the files the check as written accepts, and fails with the same error on every file that names a manufacturer |
| H5ebsd.FindScan | kikuchipy/io/plugins/_h5ebsd.py:257-261 | the inner loop returns the position of the first scan group of the desired name, or none |
| H5ebsd.FirstMatch | kikuchipy/io/plugins/_h5ebsd.py:257-261 | none iff no scan group has the name; otherwise the first group of that name |
| H5ebsd.GetDesiredScanGroups | kikuchipy/io/plugins/_h5ebsd.py:232-271 | without names the first scan group, IndexError if there is none; a single missing name is an IOError; otherwise, per requested name in order, the first matching group, and one warning per missing name |
| H5ebsd.FindGroup | kikuchipy/io/plugins/_h5ebsd.py:257-261 | the inner loop over the scan group names finds the first group of the requested name |
| H5ebsd.SelectNamed | kikuchipy/io/plugins/_h5ebsd.py:255-271 | the loop over requested names: a single missing name is an IOError; otherwise the first matching group per found name and a warning per missing one, in request order |
| H5ebsd.FoundOrWarnedCount | kikuchipy/io/plugins/_h5ebsd.py:255-270 | every requested name yields exactly one group or one warning |
| H5ebsd.FoundWereRequested | kikuchipy/io/plugins/_h5ebsd.py:255-261 | every returned group is a scan group with a requested name |
| H5ebsd.WarnedAreMissing | kikuchipy/io/plugins/_h5ebsd.py:262-270 | a name is warned about iff it was requested and no scan group has it |

## Left out

- Floating point: reals are exact, so `np.linspace`, the einsum dot products, summation order and rounding are not modelled. The geometry enters as the `Geometry` and `Projection` parameters.
- The stereographic and inverse stereographic projections, `Vector3d.unit` and the detector transforms (tilts, `recbase`, `base`, the orientation matrices). They are parameters. The properties hold for any projection.
- Miller reduction (`Miller(...).round().unique()`, line 272) is the `reduce` parameter of `Detector.Collaborators`. Its own behaviour, including the second de-duplication it performs after the exact `np.unique` of line 268, is not modelled.
- For `half_size` ≥ 1, dask chunking, `ProgressBar` and `da.store` compute the same values chunk by chunk. The model computes them at once.
- The navigation axes of `on_detector` are flattened into one list of orientations. An any-reduction over one or two axes is an any-reduction over that list.
- `detector.r_max` and the plotting extras of `KikuchiPatternLine` / `KikuchiPatternZoneAxis` are not modelled. The method `plot` and `_plot_spherical` are not modelled either.
- `hkl` is an integer triplet. Non-integer indices and the `np.isclose` tolerance of the zero test are not modelled; on integers that test is exact equality with zero.
- MasterPattern.CalculateMasterPattern: `half_size` is a natural number. A negative or fractional `half_size` (through `int(...)`) is not modelled.
- MasterPattern.CalculateMasterPattern: at `half_size` 0 the code asks dask for chunks of 0 rows (line 159), which dask may reject. The model returns a 1×1 pattern per hemisphere there.
- MasterPattern.CalculateMasterPattern: NaN Bragg angles and dot products outside [-1, 1] are not modelled.
- The `EBSDMasterPattern` and `GeometricalKikuchiPatternSimulation` objects are reduced to the data they carry.
- HDF5 input and output, `h5py.File`, `_dict2hdf5group`, `read`, `scan2dict` and the manufacturer subclasses are not modelled.
- `__repr__` is not modelled.
- File names and the texts of error messages are not modelled; errors carry their reason.
- `Hdf5.Lower` lower-cases ASCII letters only. Python's full Unicode `str.lower` is not modelled. The manufacturer names compared against are ASCII.
- Link iteration order is whatever order the `seq` of links has. In h5py that is the group's index order (by name, unless creation order is tracked).
- HDF5 link names containing "/" and path lookups deeper than `EBSD/Data` and `EBSD/Header` are not modelled.
- Warnings are returned as the list of missing names, not emitted.
- H5ebsd.OpenReader: it is built on the corrected check. On a readable file with EBSD data but no manufacturer it fails with IOError (header unreadable), where the code as written raises AttributeError. On every other file it agrees with the code (OpenReaderAsWritten).
- H5ebsd.ManufacturerVersion: its contract says which header fields are present and that only AttributeError is raised. Which link's value wins is stated on the dictionary by ReadHeader and GroupToDictLastWrite, not restated in terms of links.

## Findings

| source | as written | input that shows it | evidently intended | confidence | as-written member | corrected member |
|---|---|---|---|---|---|---|
| kikuchipy/io/plugins/_h5ebsd.py:186-187 | `man.lower()` is called even when no manufacturer was read, so `None.lower()` raises AttributeError and the IOError prepared at lines 176-177 is never raised | a file whose top group holds a group `Scan 1` containing `EBSD/Data` and `EBSD/Header`, and a dataset `Version` = "4.0", and no `Manufacturer` | an IOError saying manufacturer and/or version could not be read, as the docstring promises | not executed | H5ebsd.MissingManufacturerCounterexample | H5ebsd.CheckFile |
