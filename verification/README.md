# Verified model of the GeoID registry

GeoID gives every geometry a permanent identifier derived from the geometry
itself. This project models, in Dafny, the parts of the system that carry that
promise, and proves what each promises:

- **The identity recipe** (`Rings`, `Redrawing`, `Quantization`, `Serialization`,
  `Recipe`, `Identity`). Coordinates are quantized to a lattice by an IEEE-754
  product that is computed, not assumed; rings are de-duplicated cyclically,
  checked for degeneracy, oriented, rotated to their least rotation, serialized
  and sorted. The main theorem is that the bytes are a complete invariant of the
  shape drawn: `Identity.CompleteInvariant`. "The same shape" is defined without
  the recipe, by redrawing moves on rings and by pairing off holes and parts.
  `CanonicalForm` spells out which shapes are accepted and which bytes they get.
- **The two programs of the recipe** (`RingProcedures`, `SqlRecipe`): the Python
  reference and the PL/pgSQL function, each with its own loops, indexing and
  tie-break, proved against the one specification and so equal to each other.
- **The request schema** (`Schema`, `SchemaLaws`): exactly which geometries it
  accepts, and what acceptance guarantees to the recipe.
- **Identifiers** (`Identifiers`): the version-8 geoid stamped from a hash, and
  the monotonic version-7 generator.
- **The registry** (`Registry`): the tables, the arbiter statement and the
  invariant of every reachable state; `RegistryLaws` tells from the rows alone when
  each answer is given and what is stored. The digest is any function to 32 bytes;
  nothing assumes that it is injective.
- **Concurrent mints** (`Interleaving`): a state machine over the statement's
  steps under READ COMMITTED, with waiting, savepoint rollback, the single retry
  and aborts at any time. Its theorems hold in every interleaving, and
  `Interleaving.CommittedIsSerial` reduces each to a serial run.
- **The service** (`RegistryService`): single and bulk mints over one session with
  rollback, savepoints and the retry, while others commit, and their parity.
- **Grants** (`Grants`, with `GrantLaws` telling replies and rows) and **bulk
  resolve** (`Resolve`).

`Orders` holds lexicographic order and sorting, `Options` an option type.

Statements about differently drawn geometries carry the condition
`Registry.SameDrawing` (the same shape, and the recipe in force gives both
drawings the bytes of module `Recipe`), and statements about which hashes share a
geoid carry `Registry.StampV8`.

Where the code and its comments differ, the model follows the code. The comments
in `src/geoid/services/registry_service.py` and
`src/geoid/repositories/_pg_errors.py` call the database's degeneracy error a
backstop for writes that bypass the schema. A multipolygon with an empty part
beside a good one passes the schema, because only a degeneracy complaint of the
recipe is reported there, and has no bytes; `Schema.AcceptedSerializes` states
exactly when this happens. The grant handlers promise that a collection keeps its
last owner; this holds for requests taken one at a time, and
`GrantLaws.RacingRevocations` states exactly when two at once break it.

## Model

| member | source | states |
|---|---|---|
| Rings.DedupReduces | src/geoid/domain/geometry_identity.py:108-115 | the two loops leave a cycle with no two coinciding neighbours, wrap-around included, and leave any such cycle alone |
| Rings.ShoelaceInvariants | src/geoid/domain/geometry_identity.py:122-132 | the exact shoelace is unchanged by the start vertex and by collapsing repeats, and negated by reversal |
| Rings.LeastRotationIsLeast | src/geoid/domain/geometry_identity.py:134-142 | the rotation chosen is one of the cycle's and no greater than any other |
| Rings.SameRingSameResult | src/geoid/domain/geometry_identity.py:104-142 | listings of one ring are both rejected, for the same reason, or get the same vertices: degeneracy belongs to the ring |
| Rings.RingCompleteInvariant | src/geoid/domain/geometry_identity.py:104-142 | two accepted rings get the same vertex list if and only if their de-duplicated cycles are equal up to rotation and reversal |
| Rings.CanonNormalForm | src/geoid/domain/geometry_identity.py:104-142 | canonical vertices are reduced, wound counter-clockwise and least among their rotations; canonicalizing a normal form returns it |
| Rings.CanonMembers | src/geoid/domain/geometry_identity.py:104-142 | the canonical ring has exactly the vertices of the listing |
| Rings.AcceptedExactly | src/geoid/domain/geometry_identity.py:117-132 | a listing is accepted if and only if its exact shoelace is not zero, and reported as collapsed, with its vertex count, if and only if fewer than 3 vertices remain |
| Rings.CanonStartsSouthWest | src/geoid/domain/geometry_identity.py:134-142 | the canonical ring starts at its westernmost vertex, the southernmost of these |
| Redrawing.RedrawnIffSameRing | src/geoid/domain/geometry_identity.py:104-142 | sameness as the recipe sees it is reachability by redrawing moves (start elsewhere, reverse, repeat or merge a vertex), a definition that mentions no canonical form |
| Redrawing.ClosingVertexIsIrrelevant | src/geoid/domain/geometry_identity.py:108-115 | listing or omitting the closing vertex changes neither acceptance nor result |
| Quantization.RoundIsNearest | src/geoid/domain/geometry_identity.py:89-92 | rounding to an integer: nearest, ties to even |
| Quantization.NearestIsRepresentable | src/geoid/domain/geometry_identity.py:89-92 | the modelled product is a binary64 number (at most 53 bits, no finer than the subnormal grid) |
| Quantization.NearestIsNearest | src/geoid/domain/geometry_identity.py:89-92 | no binary64 number is closer to the exact product than the modelled one |
| Quantization.QuantizeOdd | src/geoid/domain/geometry_identity.py:89-92 | quantization is odd |
| Quantization.QuantizeMonotone | src/geoid/domain/geometry_identity.py:89-92 | quantization is monotone |
| Quantization.QuantizeHalfCell | migrations/versions/0008_identity_recipe_v2.py:90-103 | the lattice index is within half a cell of the binary product by 10,000,000 and is the only integer strictly closer; a product half-way goes to the even one |
| Quantization.QuantizeRoundTrip | src/geoid/domain/geometry_identity.py:75-92 | the double nearest q / 10,000,000 quantizes back to q for every q up to 2^50 in magnitude, which covers 1.8e9 |
| Quantization.QuantizeWhole | src/geoid/domain/geometry_identity.py:75-92 | n whole degrees are the lattice index 10,000,000 n, for every n up to 9e8 in magnitude: the product is exact there |
| Quantization.NearestTiesToEven | src/geoid/domain/geometry_identity.py:89-92 | a product half-way between two neighbouring binary64 numbers becomes the one with the even significand |
| Serialization.BytesOrder | src/geoid/domain/geometry_identity.py:155 | byte order is a total order, so sorting pieces by their bytes is well defined |
| Serialization.BytesLeExactly | src/geoid/domain/geometry_identity.py:155 | one byte string precedes another if and only if it is a prefix of it or has the smaller byte where they first differ |
| Serialization.Int8RoundTrip | src/geoid/domain/geometry_identity.py:145-148 | big-endian two's complement: every int64 reads back, and every 8 bytes come from one int64 |
| Serialization.TwosComplement | src/geoid/domain/geometry_identity.py:145-148 | the eight bytes, read as an unsigned number, are x, or x + 2^64 when x is negative |
| Serialization.ReadRingOf | src/geoid/domain/geometry_identity.py:145-148 | ring bytes are self-delimiting: whatever follows them, the reader returns the ring and exactly what follows |
| Serialization.ReadPolygonOf | src/geoid/domain/geometry_identity.py:151-156 | polygon bodies are self-delimiting |
| Serialization.DecodeEncode | src/geoid/domain/geometry_identity.py:145-187 | decoding an encoded structure returns it and consumes every byte |
| Serialization.EncodeDecode | src/geoid/domain/geometry_identity.py:145-187 | only encodings decode: re-encoding what was read gives back the bytes |
| Recipe.BytesOfDrawing | src/geoid/domain/geometry_identity.py:159-187 | the bytes depend on the coordinates only through the lattice shape drawn; malformed coordinates have none |
| Identity.CycleCodeComplete | src/geoid/domain/geometry_identity.py:104-148 | ring bytes are equal if and only if the rings are redrawings of one another |
| Identity.PolygonCodeComplete | src/geoid/domain/geometry_identity.py:151-156 | polygon bodies are equal if and only if the exteriors are the same ring and the holes pair off as the same rings, in any order |
| Identity.MultiPointComplete | src/geoid/domain/geometry_identity.py:177-183 | MultiPoint bytes are equal if and only if the members are the same multiset of lattice points, duplicates counted |
| Identity.MultiPolygonComplete | src/geoid/domain/geometry_identity.py:186-187 | MultiPolygon bytes are equal if and only if the parts pair off as the same polygons, in any order |
| Identity.CompleteInvariant | src/geoid/domain/geometry_identity.py:159-187 | main theorem: canonical bytes are equal if and only if the two geometries draw the same shape on the lattice |
| Identity.AcceptanceIsInvariant | src/geoid/domain/geometry_identity.py:159-187 | drawings of one shape are both accepted, with the same bytes, or both rejected |
| Identity.DecodeCanonical | src/geoid/domain/geometry_identity.py:145-187 | every canonical byte string decodes, to its last byte, to a structure of the same shape whose own canonical bytes they are |
| CanonicalForm.CanonicalBytesAre | src/geoid/domain/geometry_identity.py:104-187 | the canonical bytes are the encoding of the one structure of the same shape that is in canonical form: rings in normal form, holes, parts and members ascending |
| CanonicalForm.CanonicalFormIsFixed | src/geoid/domain/geometry_identity.py:104-187 | a structure in canonical form is accepted and encoded as it stands |
| CanonicalForm.DecodesToCanonicalForm | src/geoid/domain/geometry_identity.py:145-187 | what the decoder reads from any canonical bytes is in canonical form |
| CanonicalForm.ShapeAcceptedExactly | src/geoid/domain/geometry_identity.py:104-187 | a shape has canonical bytes if and only if it is nonempty, every ring has an area, and coordinates and counts fit int64 and int4 |
| CanonicalForm.Header | src/geoid/domain/geometry_identity.py:78-84 | byte 0 is 2; byte 1 is 1, 2, 3 or 4 for the four types |
| CanonicalForm.RingLayout | src/geoid/domain/geometry_identity.py:145-148 | a ring is its count in 4 bytes and then x and y of each vertex in 8, two's complement, most significant byte first |
| CanonicalForm.ShapeLayout | src/geoid/domain/geometry_identity.py:159-187 | what follows the header, type by type, from the start |
| CanonicalForm.RectangleCanon | src/geoid/domain/geometry_identity.py:104-142 | however a rectangle is listed, its canonical ring runs counter-clockwise from the south-west corner |
| CanonicalForm.RectangleBytes | src/geoid/domain/geometry_identity.py:89-187 | the bytes of every rectangle of whole degrees, from coordinates to the last byte |
| RingProcedures.CanonRingInPython | src/geoid/domain/geometry_identity.py:104-142 | the reference procedure computes the specification, errors included |
| RingProcedures.RemoveRepeats | src/geoid/domain/geometry_identity.py:110-115 | the two loops compute the cyclic de-duplication |
| RingProcedures.SumOfEdges | src/geoid/domain/geometry_identity.py:124-128 | the modulo-indexed loop computes the shoelace of the closed walk |
| RingProcedures.Minimum | src/geoid/domain/geometry_identity.py:137 | a vertex of the list no greater than any other |
| RingProcedures.StartsAt | src/geoid/domain/geometry_identity.py:138 | exactly the positions of the minimum, and at least one |
| RingProcedures.LeastStart | src/geoid/domain/geometry_identity.py:142 | the start whose rotation is no greater than that of any other start |
| RingProcedures.LeastAmongStarts | src/geoid/domain/geometry_identity.py:134-142 | the least rotation among those starting at a minimum is the least of all rotations |
| RingProcedures.RotateToLeast | src/geoid/domain/geometry_identity.py:134-142 | both branches return the least rotation |
| RingProcedures.RemoveRepeatsInSql | migrations/versions/0008_identity_recipe_v2.py:136-157 | the first n entries of the arrays are the cyclic de-duplication |
| RingProcedures.CloseInSql | migrations/versions/0008_identity_recipe_v2.py:154-157 | shrinking n drops exactly the trailing vertices equal to the first |
| RingProcedures.AreaInSql | migrations/versions/0008_identity_recipe_v2.py:164-169 | the aggregate with 1-based modulo indexing is the shoelace |
| RingProcedures.MinimumInSql | migrations/versions/0008_identity_recipe_v2.py:181-185 | the selected row holds the minimum |
| RingProcedures.StartsInSql | migrations/versions/0008_identity_recipe_v2.py:186-188 | the tied rows, in whatever order the aggregate lists them |
| RingProcedures.ComesBefore | migrations/versions/0008_identity_recipe_v2.py:195-205 | the pairwise loop decides whether one rotation is strictly smaller than another |
| RingProcedures.BestStartInSql | migrations/versions/0008_identity_recipe_v2.py:190-206 | no listed row starts a smaller rotation than the one kept |
| RingProcedures.BestRowIsLeast | migrations/versions/0008_identity_recipe_v2.py:186-206 | the kept row starts the least rotation, whatever the order of the tied rows |
| RingProcedures.SerializeInSql | migrations/versions/0008_identity_recipe_v2.py:208-215 | the modulo-indexed aggregation emits the bytes of the rotation |
| RingProcedures.CanonRingInSql | migrations/versions/0008_identity_recipe_v2.py:113-220 | the database procedure gives the reference bytes and rejections on every ring whose coordinates fit bigint and whose length fits int4; whatever it accepts, the reference accepts with the same bytes |
| RingProcedures.TwinsAgree | migrations/versions/0008_identity_recipe_v2.py:135-217 | reference and database accept the same rings with the same bytes; without overflow they also reject with the same verdict |
| RingProcedures.UnpackableStays | src/geoid/domain/geometry_identity.py:145-148 | a coordinate outside bigint never gets bytes from the reference either |
| SqlRecipe.PolygonBodyInSql | migrations/versions/0008_identity_recipe_v2.py:222-244 | the polygon body function accepts and produces what the reference does |
| SqlRecipe.BodiesInSql | migrations/versions/0008_identity_recipe_v2.py:283-288 | the MULTIPOLYGON branch agrees with the reference |
| SqlRecipe.MembersInSql | migrations/versions/0008_identity_recipe_v2.py:273-280 | the MULTIPOINT branch computes the reference result, duplicates kept |
| SqlRecipe.CanonicalBytesInSql | migrations/versions/0008_identity_recipe_v2.py:251-296 | on every geometry whose counts fit int4, the database accepts exactly what the reference accepts, with the same bytes, for any listing order of unordered aggregates |
| Schema.AcceptedOnEarth | src/geoid/schemas/place.py:28-51 | a geometry the schema accepts has only 2D positions within bounds: the two walks miss no position |
| SchemaLaws.WalkIsExact | src/geoid/schemas/place.py:28-51 | the walk over the nested array yields exactly the positions that the geometry lists |
| SchemaLaws.VerdictExactly | src/geoid/schemas/place.py:114-150 | each verdict exactly when, in the order of the checks; in particular a nonempty 2D geometry within the world that does not degenerate is accepted |
| Schema.ShoelaceTermFits | src/geoid/domain/geometry_identity.py:122-128 | each shoelace term of an accepted ring fits int64 |
| Schema.PathSumBound | src/geoid/domain/geometry_identity.py:122-128 | the sum over a path is bounded by the number of vertices only |
| Schema.WorldRectangleOverflows | migrations/versions/0008_identity_recipe_v2.py:164-169 | the world rectangle's sum does not fit int64: exact arithmetic is needed |
| Schema.AcceptedSerializes | src/geoid/schemas/place.py:114-150 | an accepted geometry with counts below 2^31 has canonical bytes if and only if every part has a ring, and its only possible rejection is that one: no overflow, no degeneracy |
| Schema.EmptyPartPasses | src/geoid/schemas/place.py:142-149 | a multipolygon with an empty part beside a good one passes the schema and has no bytes: the database's error is reachable from it |
| Identifiers.StampedBits | src/geoid/domain/identifiers.py:140-143 | the mask-and-or of version 8 and variant, as arithmetic |
| Identifiers.FieldBits | src/geoid/domain/identifiers.py:68-73 | the or of version 7 and variant, as arithmetic |
| Identifiers.GeoidFromGeomHash | src/geoid/domain/identifiers.py:124-143 | stamps in place; fewer than 16 bytes are refused |
| Identifiers.StampKeeps122Bits | src/geoid/domain/identifiers.py:140-143 | version 8, RFC variant, and two hashes share a geoid if and only if they share the 122 kept bits |
| Identifiers.AssembleInPlace | src/geoid/domain/identifiers.py:46-82 | filling the byte array yields the layout of the masked fields |
| Identifiers.FillTime | src/geoid/domain/identifiers.py:60-66 | bytes 0-5 are the big-endian time, the rest untouched |
| Identifiers.FillVersion | src/geoid/domain/identifiers.py:68-70 | bytes 6-7 are version and counter, the rest untouched |
| Identifiers.FillVariant | src/geoid/domain/identifiers.py:72-80 | bytes 8-15 are variant and random tail, the rest untouched |
| Identifiers.AssembleFields | src/geoid/domain/identifiers.py:46-82 | all three fields can be read back, masked to their widths |
| Identifiers.EarlierIsBefore | src/geoid/domain/identifiers.py:85-121 | an identifier of an earlier (time, counter) pair is strictly smaller in byte order, whatever the random tails |
| Identifiers.ClockAdvances | src/geoid/domain/identifiers.py:104-118 | the pair held under the lock strictly advances over any clock readings, backward jumps included |
| Identifiers.MintsIncrease | src/geoid/domain/identifiers.py:85-121 | for any readings and random bytes, identifiers strictly increase, hence differ, in lock order while the time fits 48 bits |
| Identifiers.MintTimeNotBehind | src/geoid/domain/identifiers.py:104-121 | the embedded time is the one held, never behind the reading used |
| Identifiers.MintIsExact | src/geoid/domain/identifiers.py:85-121 | all sixteen bytes of each identifier of a run, field by field, from the held pair, the reading and the random bytes |
| Identifiers.TimeKeepsPace | src/geoid/domain/identifiers.py:104-118 | over a run the held time is at least the latest reading, and ahead of it by at most one millisecond for each time the counter was used up |
| Identifiers.WrapLosesOrder | src/geoid/domain/identifiers.py:55 | one millisecond past 48 bits the order is lost: the bound is needed |
| Identifiers.Uuid7Generator.Uuid7 | src/geoid/domain/identifiers.py:103-121 | a later reading is held exactly, with a fresh counter; otherwise the time stays and the counter goes up by one, or the time by one millisecond when the counter was 4095; the identifier carries the pair |
| Registry.SameGeometrySameHash | src/geoid/repositories/place_repo.py:146-152 | drawings of one shape share their hash, or share having none |
| Registry.HashesUnique | migrations/versions/0001_initial.py:102-116 | at most one registry row per hash |
| Registry.RegisteredUnderStamp | src/geoid/repositories/place_repo.py:171-177 | a registered hash sits under its own stamp, with a place row whose collection joins |
| Registry.SharedStamp | src/geoid/domain/identifiers.py:140-143 | two hashes compete for one geoid if and only if they share 122 bits |
| Registry.MintKeepsConsistent | src/geoid/repositories/place_repo.py:153-170 | adding the three rows of a sound and fresh mint keeps every invariant of the tables, and every older row |
| Registry.CreatedWhen | src/geoid/repositories/place_repo.py:144-179 | a row is created if and only if the geometry hashes and the mint is sound and fresh, with `RegistryLaws.CreatedExactly` telling this from the rows; the place key never clashes |
| Registry.StatementKeepsConsistent | src/geoid/repositories/place_repo.py:144-179 | every statement, whatever its outcome, keeps the tables consistent and only adds to them |
| Registry.AcceptedResolves | src/geoid/repositories/place_repo.py:171-199 | an accepted geoid is the stamp of the submitted geometry's hash and resolves to a place with that hash; the drift guard never fires |
| Registry.RegisteredHashIsReturned | src/geoid/repositories/place_repo.py:137-142 | once a hash is registered, any request with it returns its geoid and writes nothing, even with a clashing external id or an invalid drawing |
| Registry.MintIsIdempotent | src/geoid/repositories/place_repo.py:153-177 | once a shape is minted, every later mint of any drawing of it returns the same geoid and changes nothing |
| Registry.RunKeepsConsistent | migrations/versions/0001_initial.py:208-303 | along any run of statements every state is consistent and no earlier row is lost or changed |
| Registry.AgainCreatesNothing | src/geoid/repositories/place_repo.py:153-177 | a request repeated at any later state creates nothing; an accepted one gets its geoid again |
| RegistryLaws.CreatedExactly | src/geoid/repositories/place_repo.py:144-179 | a row is created if and only if the geometry parses, hashes and is valid, no row has the hash or the geoid, the collection exists and no row of it, unless it is the public one, has the external id |
| RegistryLaws.ExistingExactly | src/geoid/repositories/place_repo.py:137-142 | an existing geoid is returned if and only if some row has the derived hash, and it is that row's |
| RegistryLaws.ExternalIdClashExactly | migrations/versions/0012_public_external_id.py:85-92 | an external id is refused if and only if some place row of the same collection, not the public one, has it, and the valid geometry would otherwise be new |
| RegistryLaws.RefusedExactly | src/geoid/repositories/place_repo.py:144-179 | each other error of the statement, exactly when |
| RegistryLaws.StoresTheRequest | src/geoid/repositories/place_repo.py:149-170 | a created mint adds one registry row, one place row and one log row, every field as requested; no other outcome writes |
| RegistryLaws.RowsBelongTogether | migrations/versions/0001_initial.py:102-116 | each registry row has its place row, in the same known collection; its hash is the digest of the stored geometry's bytes and its geoid the stamp |
| RegistryLaws.LoggedOnce | migrations/versions/0001_initial.py:208-303 | each place row is logged exactly once, as it is |
| RegistryLaws.ExternalIdsNeverShared | migrations/versions/0012_public_external_id.py:85-92 | two places of one collection share an external id only in the public collection |
| RegistryLaws.SharedHash | src/geoid/domain/geometry_identity.py:159-187 | two identified drawings share their hash if and only if they are the same shape or the digest collides on different bytes |
| RegistryLaws.SharedGeoid | src/geoid/repositories/place_repo.py:171-179 | two accepted requests of one history get the same geoid if and only if their hashes agree |
| Interleaving.FreshAfter | migrations/versions/0001_initial.py:102-116 | a mint passes the unique indexes after other rows if and only if it passes them before and differs from each in key and external id |
| Interleaving.QuietKeeps | src/geoid/services/registry_service.py:95-108 | arbiter hits and passes, lost races with their retry, raised errors and re-reads keep a transaction's invariant |
| Interleaving.PlaceInsertKeeps | src/geoid/repositories/place_repo.py:159-170 | so does inserting the place row, with the answer it justifies |
| Interleaving.OthersAfterCommit | src/geoid/repositories/place_repo.py:120-135 | another transaction's commit keeps a transaction's pending rows insertable and its answers justified |
| Interleaving.StepKeepsInv | src/geoid/repositories/place_repo.py:144-179 | every step of every transaction, commits and aborts included, keeps the invariant of the whole database and only adds to what is committed |
| Interleaving.RunKeepsInv | src/geoid/repositories/place_repo.py:144-179 | so does every interleaving |
| Interleaving.CommittedIsConsistent | src/geoid/repositories/place_repo.py:144-179 | in every interleaving the committed tables hold one row per hash, each with exactly one place row and one log row, and unique external ids |
| Interleaving.DeliveredResolves | src/geoid/repositories/place_repo.py:120-135 | a geoid handed to a client resolves in every later world to one and the same place, with the hash the client submitted |
| Interleaving.SameShapeSameGeoid | src/geoid/repositories/place_repo.py:120-135 | all clients that succeed on one shape, however drawn, get the same geoid |
| Interleaving.RefusalIsGrounded | migrations/versions/0012_public_external_id.py:85-92 | a delivered refusal has its ground: for an external id, a committed place row of the same collection that has it |
| Interleaving.EveryRequestIsAnswered | src/geoid/repositories/place_repo.py:144-199 | no step loses, repeats or reorders a request: a commit delivers one answer for each, in order, and nothing else delivers or commits |
| Interleaving.IncumbentIsFound | src/geoid/repositories/place_repo.py:72-93 | a re-read after DO NOTHING finds the incumbent at the first attempt; the missing-incumbent error is unreachable |
| Interleaving.RetryIsLostOnlyByCollision | src/geoid/services/registry_service.py:95-108 | a client loses its single retry only when a different hash with the same 122 bits is registered; the other unique keys never clash |
| Interleaving.RetryFindsTheWinner | src/geoid/services/registry_service.py:146-156 | after a lost race that was no collision, the retry is answered with the winner's geoid in two steps, waiting for nobody |
| Interleaving.CommittedIsSerial | src/geoid/services/registry_service.py:238-240 | whatever the interleaving, the committed tables are those of some serial run of statements from empty tables, all of whose clients were told of their geoid |
| Interleaving.AloneIsStatement | src/geoid/repositories/place_repo.py:144-199 | with nobody else in a transaction, the steps of a statement that does not abort its request run through and answer exactly as the sequential statement |
| RegistryService.SameAnswerEitherWay | src/geoid/services/registry_service.py:337-374 | for every outcome possible on consistent tables, the bulk verdict stands for the reply of the single endpoint |
| RegistryService.RepliesExactly | src/geoid/api/errors.py:128-178 | each reply of the single endpoint and each verdict of the bulk one, exactly for which outcomes |
| RegistryService.HandlersAgree | src/geoid/services/registry_service.py:337-374 | an escaped database error is answered, and a bulk one classified, as the outcome it stands for |
| RegistryService.OnlyTheKeyIsRaced | src/geoid/services/registry_service.py:84-108 | a statement overtaken while it waits either answers as it would have after the others or reports the registry key, and then either the incumbent is there or the key is held under another hash |
| RegistryService.AbortsExactly | src/geoid/services/registry_service.py:219-306 | a feature aborts its batch if and only if it is well-formed and its bytes fail in an unforeseen way, whatever came before; a malformed feature never does |
| RegistryService.ReportExactly | src/geoid/services/registry_service.py:216-245 | a report rejects a feature as schema-invalid if and only if it is malformed, and accepts it with a geoid if and only if its mint, at its turn, has that geoid |
| RegistryService.OnlyCreationsWrite | src/geoid/services/registry_service.py:238-240 | besides what others commit, a turn changes the tables only when it creates its row |
| RegistryService.ListsReport | src/geoid/services/registry_service.py:216-245 | accepted and rejected list the verdicts, each in feature order, and together cover every feature |
| RegistryService.ListsAreDisjoint | src/geoid/schemas/place.py:300-312 | no feature is in both lists |
| RegistryService.ResubmissionWritesNothing | src/geoid/services/registry_service.py:219-245 | a batch submitted again at any later state, others committing between and during the turns, writes no row of its own, re-accepts every accepted feature with its geoid and is aborted if and only if the first was |
| RegistryService.RejectedThenAccepted | src/geoid/services/registry_service.py:219-245 | on that second submission a rejected feature is accepted if and only if its shape is registered by then |
| RegistryService.Session.RollbackNested | src/geoid/services/registry_service.py:269-271 | rolling back to the savepoint restores exactly what the transaction saw when it was set |
| RegistryService.Session.ResolveIncumbent | src/geoid/repositories/place_repo.py:72-93 | the re-read finds the incumbent if and only if the hash is registered |
| RegistryService.Session.RegistryLeg | src/geoid/repositories/place_repo.py:153-158 | arbiter on the hash, then, after any wait in which others commit, the key: hit, clash or one new row |
| RegistryService.Session.PlaceLeg | src/geoid/repositories/place_repo.py:159-170 | CHECK, key, external id and foreign key in this order, then place row and log row; `RegistryLaws.ExternalIdClashExactly` tells the external id from the rows |
| RegistryService.Session.InsertPlace | src/geoid/repositories/place_repo.py:96-199 | the legs together answer as the statement overtaken by the others, and leave the tables as the sequential statement does after them, or fail the transaction |
| RegistryService.Session.CreatePlace | src/geoid/services/registry_service.py:111-186 | whatever others commit while it waits, the reply is that of the statement run after them: the single retry makes up for a lost race; every query runs on a usable transaction |
| RegistryService.Session.PostPlace | src/geoid/services/registry_service.py:111-186 | a whole request has exactly the statement's effect on what was committed before it: an error reply writes nothing |
| RegistryService.Session.Attempt | src/geoid/services/registry_service.py:269-278 | an abort inside the savepoint undoes this feature alone, never what others committed meanwhile |
| RegistryService.Session.MintOne | src/geoid/services/registry_service.py:248-334 | the verdict and the effect are the statement's after whatever others committed while it waited, retry included, and the outer transaction stays usable |
| RegistryService.Session.CreatePlacesBulk | src/geoid/services/registry_service.py:189-245 | the loop fails if and only if some feature is unforeseen, and stops at the first; otherwise it reports every verdict, others' commits in every turn included |
| RegistryService.Session.PostBulk | src/geoid/services/registry_service.py:189-245 | on abort only what others committed up to that turn is there; otherwise the tables are those of minting the features one at a time among the others' commits |
| RegistryService.Session.PostOneByOne | src/geoid/services/registry_service.py:111-186 | the single endpoint, called per feature among the same commits of others, ends in the same tables with the matching replies |
| Grants.GuardIsExact | src/geoid/api/grants.py:133-143 | the last-owner condition holds if and only if there is an owner now and would be none without this row |
| Grants.DemotionIsRemoval | src/geoid/api/grants.py:87-96 | demoting a row leaves an owner exactly when removing it does |
| Grants.StepKeepsOwners | src/geoid/api/grants.py:85-104 | every request keeps one row per key and an owner wherever there was one |
| Grants.RefusedExactlyWhenOrphaning | src/geoid/api/grants.py:133-146 | a caller who may manage is refused with the guard's 409 exactly when the request would leave an owned collection ownerless |
| Grants.StepKeepsSubjects | src/geoid/repositories/grant_repo.py:109-127 | a recorded subject is never overwritten |
| Grants.StepKeepsNormalised | src/geoid/repositories/grant_repo.py:25-38 | user rows are stored under normalised emails only |
| Grants.OnceOwnedAlwaysOwned | src/geoid/api/grants.py:76-146 | over any serial run, a collection that ever had an owner has one from then on |
| Grants.GrantTable.UpsertGrant | src/geoid/repositories/grant_repo.py:50-82 | inserts, or updates role and granter alone; returns the row as stored |
| Grants.GrantTable.LoadGrant | src/geoid/services/authz_service.py:30-69 | honours a grant only when no other subject is recorded on it, and records the caller's subject only where there was none |
| Grants.GrantTable.RequireManageable | src/geoid/api/grants.py:35-59 | 401, 404, 403 in this order, or the rows to go on with |
| Grants.GrantTable.CreateGrant | src/geoid/api/grants.py:76-104 | the handler is the step the run theorems are about: refusals in order, the guard before a demotion, and an error undoes the backfill too |
| Grants.GrantTable.DeleteGrant | src/geoid/api/grants.py:127-146 | likewise for revoking: an unknown grant is reported before the guard is asked; `GrantLaws.RevokedExactly` tells which rows are left |
| GrantLaws.HonouredExactly | src/geoid/services/authz_service.py:30-69 | a grant is honoured if and only if the caller has a verified email, it is theirs, and no other subject is recorded on it |
| GrantLaws.ManagesExactly | src/geoid/api/grants.py:35-59 | a caller may manage if and only if the collection exists and they are an administrator or hold an honoured owner grant |
| GrantLaws.GiveReplies | src/geoid/api/grants.py:76-104 | each reply of a grant request, exactly when, told from the rows |
| GrantLaws.TakeReplies | src/geoid/api/grants.py:127-146 | each reply of a revocation, exactly when, told from the rows |
| GrantLaws.OtherSubjectIsForbidden | src/geoid/services/authz_service.py:57-64 | a caller on whose grant another subject is recorded can neither grant nor revoke |
| GrantLaws.RefusalChangesNothing | src/geoid/api/grants.py:133-143 | a refusal leaves every row as it was |
| GrantLaws.RevokedExactly | src/geoid/repositories/grant_repo.py:98-106 | after a revocation no row grants the person anything, and every other row is there with its role |
| GrantLaws.GrantedExactly | src/geoid/repositories/grant_repo.py:50-82 | after a grant the person's row carries the requested role and who granted it, its subject as before or null, and every other row keeps its role |
| GrantLaws.SubjectIsRecorded | src/geoid/repositories/grant_repo.py:109-127 | a request that succeeds leaves the caller's subject on their honoured grant where there was none |
| GrantLaws.RacingRevocations | src/geoid/api/grants.py:134-144 | when two revocations are both judged on the same rows, an owner is left if and only if there is a third besides the two persons: one at a time the guard suffices, at once it does not |
| GrantLaws.TwoOwnersRevokeEachOther | src/geoid/api/grants.py:134-144 | the input on which it fails: the only two owners revoke each other at once, both get 204, and nobody owns the collection |
| Resolve.FromKeysFacts | src/geoid/api/places.py:288 | the de-duplicated request lists every id once, first asked for first |
| Resolve.FindsEveryPlace | src/geoid/repositories/place_repo.py:225-234 | a geoid is found if and only if there is a place row with it, and then that row is returned |
| Resolve.AcceptedIsFound | src/geoid/repositories/place_repo.py:225-234 | an accepted geoid resolves at once, to a place with the submitted hash; a created one to the row just stored |
| Resolve.DeliveredIsFound | src/geoid/repositories/place_repo.py:225-234 | in every interleaving a delivered geoid resolves in every later world to the row committed for it |
| Resolve.BulkResolveIsSingle | src/geoid/api/places.py:288-297 | features are exactly what the single resolver returns, the rest is not found, both in first-request order |
| Resolve.RowOrderIsIrrelevant | src/geoid/repositories/place_repo.py:237-247 | the answer does not depend on the order in which the rows come back |

## Left out

- SHA-256: the digest is an uninterpreted function to 32 bytes; that different shapes get different geoids is not claimed.
- ST_IsValid, the GeoJSON and WKT parsers and the GeoJSON model: predicates on the drawing as submitted, or the shape of the input (every position has two or three ordinates).
- Float overflow, infinities and NaN: quantization is modelled on real inputs with the binary64 grid, subnormals included, and no upper bound on the exponent.
- Drawings with a third ordinate at the database: the schema refuses them first (`Schema.AcceptedOnEarth`); the registry model treats them as an unforeseen error.
- Recipe v1 and the migrations that replaced it: bound to GEOS and superseded.
- Deadlock, progress and timing: a transaction may abort at any time, so only safety is claimed; waiting appears as a step that is not enabled.
- Log sequence numbers: the log is a list in commit order, while the database assigns numbers at insertion and leaves gaps on rollback.
- The immutability triggers as statements: the model has no statement that updates or deletes these rows, which is what the triggers enforce.
- Migration 0012 as a procedure (finding or creating the public collection, swapping the constraint): only the resulting uniqueness is modelled, as `ExternalIdTaken`.
- The attributes of a place that no decision depends on: creation time, provenance beyond the creator, originating instance.
- Whole-batch aborts for infrastructure errors, NUL bytes and unknown SQLSTATEs: the first two are the abort step of the concurrent model; the last is the `OtherSqlState` outcome.
- RegistryService.Session.InsertPlace: others commit at one moment of the statement, between its arbiter and its key, and their rows fit beside the session's own; what makes them fit, and commits between any two steps, are in `Interleaving`.
- RegistryService.SameAnswerEitherWay: leaves out a geom_hash unique loss after the retry, answered 409 by one endpoint and internal_error by the other, because no statement on consistent tables has that outcome.
- Write authorization of a mint and the role ladder: one-branch logic in front of the statement; grants are modelled for managing grants only.
- Grants.OnceOwnedAlwaysOwned: states the property for requests taken one at a time, because the code counts owners and acts on the count without a lock; `GrantLaws.RacingRevocations` says exactly when two revocations at once break it.
- Email normalisation is any function of the address; the schema's own CHECK on stored emails is not modelled.
- Resolve.BulkResolveIsSingle: covers requests within the configured limit; above it `ResolveGeoids` answers with the limit error.
- The timestamp override of the version-7 generator, which bypasses its state.
- HTTP routing, caching, content negotiation, listings and configuration.
