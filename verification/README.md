# onak in Dafny

onak is an OpenPGP keyserver written in C. This project models its hard parts in Dafny and proves what they
are for. `dafny verify dfyconfig.toml` checks everything; there is nothing to run.

Words used throughout: a *key* is a primary key packet with direct signatures, user ids or user attributes
(UIDs, UATs) and subkeys, each of them with signatures; a *signer class* is the signatures of one version, type
and known issuer on one packet; a *delta* is what is left of an incoming key once the stored key has taken what
it lacked, which is what goes out to other servers.

## How the files fit together

| files | what they model |
|---|---|
| `Sequences`, `Packets`, `Octets` | shared facts, packets, decoded signatures, numbers in octets |
| `SigDedupe`, `SigLists` | one signature per signer class, as a value and on linked nodes with a tail pointer |
| `Merge`, `PublicKeys`, `KeyDb`, `MergeShape` | merging packets, keys and whole stores, the deltas, and what is left where |
| `DeltaReplay`, `Minimality`, `Join`, `FetchFallback` | theorems about replication: replay, when a delta is minimal, merge as a join, revocations, fetching by subkey |
| `Duplicates`, `CapUids`, `CleanKeys`, `CleanReturn`, `CleanTwice`, `CleanTails` | the cleaning pipeline in front of the merge, what it returns, what a second run does, and tail pointers |
| `KeyGraph`, `Components` | reachability, and the two-pass component finder |
| `TrustWalks`, `TrustPaths`, `LateFlags` | breadth-first search, disjoint paths, degrees, the lazily filled signature cache, and revoked keys on paths |
| `Subpackets`, `PacketStream`, `KeyGrammar`, `Armor`, `Crc24`, `Transfer` | the codecs, the checksum, and their composition |
| `Db4Index`, `Db4Codec`, `KeyArray`, `WordList`, `TextSearch` | the indexes of the db4 backend and text search |
| `StreamHash`, `Md5`, `Sha1`, `SksHash` | buffering and padding of the hashes, and the SKS hash |
| `TemplateText`, `TemplateRender`, `TemplateMeanings` | the template engine and its language |
| `WireValues`, `Meanings` | octets, limits and comparisons with their numbers written out |

Where the C code rewires lists or updates fields, there is a class or a method with loops, proved equal to a
function; the theorems are about the functions. Block functions of hashes, signature checking, character
classes, and what a key's words, hash and subkey fingerprints are, are parameters: the theorems hold for any.

The functions the theorems are stated with are themselves tied to octets, numbers and characters, in `MergeShape`,
`Crc24`, `WireValues`, `Meanings` and `TemplateMeanings`.

Several proofs pass functions as values (`Cleaner`, `Scanner`, `World`, ...) together with a predicate that says
what they are. This keeps definitions from being unfolded where only their laws are needed.

## What the code does not do

Some promises made in comments or documentation do not hold. Each has a lemma with a concrete failing input and
one that says exactly when the promise holds:

* An incoming key that changes nothing should not be passed on (`keydb/keydb.c:160-168`). It is, in two cases. A
  signature older than the stored one from the same signer is dropped by the merge but stays in the delta
  (`Minimality.StaleExample`, `Minimality.StaleBounces`); and with update-only a key that is not stored is skipped
  but stays on the list (`Minimality.UpdateOnlyExample`). `Minimality.PassedOnForNothingIff` is the exact condition.
  Where the store also looks among subkeys there is a third case: a key whose fingerprint is that of a stored
  subkey is neither merged nor stored, and stays on the list (`FetchFallback.ForeignExample`,
  `FetchFallback.PassedOnIff`, `FetchFallback.StoredIff`).
* A path of the web of trust should not lead through a revoked key (`stats.c:91-93`). The flag of a key is loaded when
  its own signatures are, after it has been stepped on, so a path can (`LateFlags.RevokedOnPath`). The flags loaded at
  a call keep all shortest chains away from revoked keys exactly if no revoked key without a flag is the only link
  between two others (`LateFlags.AvoidsRevokedIff`), and then no reported path leads through one
  (`LateFlags.ReportAvoids`); with all flags loaded this is so (`TrustPaths.FixedFlags`).
* Deleting by a subkey's fingerprint leaves the key stored and its subkeys without an entry
  (`Db4Index.DeleteBySubkey`); `Db4Index.DeleteAgreesIff` says exactly when the tables agree after a delete.
* `cleankeys` should return the number of keys cleaned, and 0 if no changes were made (`cleankey.c:630-639`). Its
  counter is shared by all keys, so that keys left alone are counted behind one that was not
  (`CleanReturn.OverCount`); and keys without user ids, and packets that go for lack of a self-signature or of
  another's signature, are not counted (`CleanReturn.SilentRemoval`, `CleanReturn.UncountedRemoval`). Exactly when
  the number is right, and when 0 means no change, is in `CleanReturn.ReturnValueIff` and `CleanReturn.ZeroIff`.
* A second run of `cleankeys` may find work. A signature cap can cut a revocation, so that a packet turns active and
  over the cap (`CleanTwice.RevocationCut`); and the user id with the only signature by another key can be removed
  (`CleanReturn.UncountedRemoval`). `CleanTwice.SecondRunIff` is the exact condition, for any policy.
* A version 5 certification revocation is taken for known when the stored key has a version 5 certification from
  the same issuer made at the same time, so a merge can lose it (`Join.LostV5Revocation`, `Join.RevokedMergeIff`).
* Octets that are no packet behind a good packet make the reader discard the good packet
  (`PacketStream.FollowedExample`); `PacketStream.FollowedIff` says exactly when all packets are returned.
* A limit on the number of keys to read cuts off the signatures, user ids and subkeys of the last key
  (`PacketStream.LimitedExample`); `PacketStream.LimitedRead` and, on keys, `Transfer.LimitedKeys` say exactly when
  the keys are whole.
* The cap on user ids does not adjust the list's tail pointer. The last packet can go (`CapUids.LastCanGo`); it stays
  on every list exactly for maxima like those in use (`CapUids.LastStaysIff`). The other stages of cleaning do not
  adjust it either: `CleanTails` says for each exactly when the last node stays, with `CleanTails.DuplicateExample` as
  an input where it goes.

## Model

| member | source | states |
|---|---|---|
| SigDedupe.SurvivorsDeduped | merge.c:135-212 | What the collapse leaves has no two signatures of one signer class, and collapsing again changes nothing. |
| SigDedupe.ClassKeepsBest | merge.c:135-212 | Every signature is either kept or displaced by one of its class that is kept. |
| MergeShape.CollapseKeeps | merge.c:135-212 | Which positions stay, in order: an unknown issuer always; a signature of type 0x20, 0x28 or 0x30 exactly if none before it has its version, type and issuer; any other exactly if none with these is newer and none before it as new. |
| MergeShape.CollapsePair | merge.c:161-190 | Of two revocations by one issuer the first stays, of two certifications the newer. |
| SigDedupe.DropBeaten | merge.c:150-206 | Dropping any displaced signature, in whatever order, leaves the same outcome. |
| SigDedupe.DedupedFixed | merge.c:135-212 | A list with one signature per class is left as it is, order included. |
| SigLists.SigList.Dedupe | merge.c:135-212 | On linked nodes: the contents become the survivors of the old contents, the count is the difference in length, and the tail pointer is on the real last node if it was before. |
| SigLists.SigList.DropSig | merge.c:119-133 | Unlinking one node removes exactly that signature and repairs the tail pointer when it was the last. |
| SigLists.SigList.KeepFresh | merge.c:358-410 | Thinning the incoming list in place keeps exactly the signatures the stored list does not know, in order. |
| SigLists.MergePacketSigs | merge.c:358-410 | The stored list becomes the merge of both, the incoming list keeps what was new, and both keep valid tail pointers. |
| MergeShape.MergeSigsShape | merge.c:358-411 | The stored signatures, then exactly the incoming ones whose version, issuer, time and, for version 4, type are not listed, in order, collapsed. |
| Merge.DeltaStep | merge.c:425-471 | Merging the stored packets one after the other reduces the incoming list step by step to the delta of the whole. |
| Merge.DeltaDistinct | merge.c:425-471 | A delta of a list without repeated packets has none either. |
| PublicKeys.MergeSignedPackets | merge.c:425-471 | The stored list becomes the merged list, the incoming list its delta. |
| MergeShape.MergedListShape | merge.c:425-471 | The stored packets in their places, then exactly the incoming ones whose tag and octets were not stored, in order and unchanged. |
| MergeShape.MergedPacketShape | merge.c:425-471 | A stored packet takes the signatures of the first incoming one like it, or stays as it is. |
| PublicKeys.MergeKeys | merge.c:486-568 | Two keys of one key id: the stored one becomes the merge, the incoming one the delta. With different key ids the result is -1 and only the revoked flag spreads to both. |
| MergeShape.MergedDirect | merge.c:520-546 | The stored key keeps its direct signatures in front and gains exactly those of the other key whose octets it did not have, in order; the delta has just these; either is revoked if one was. |
| MergeShape.DirectIsUnion | merge.c:520-546 | A direct signature is on the merged key exactly if it was on either. |
| KeyDb.KeyStore.UpdateKeys | keydb/keydb.c:172-246 | The loop over keys: the store, the list passed on and the number of new fingerprints are those of the functional run, blacklist and update-only included. |
| KeyDb.MergeKeepsClean | merge.c:486-568 | Merging clean keys gives a clean key and a clean delta. |
| KeyDb.UpdateKeepsClean | keydb/keydb.c:172-246 | Every run from a clean store on clean keys ends in a clean store and sends out clean keys. |
| MergeShape.StepTouches | keydb/keydb.c:185-240 | A turn touches no other key; a blacklisted key is dropped; a new one is stored and passed on as it came. |
| MergeShape.UpdateJoinsDirect | keydb/keydb.c:172-246 | After a run a direct signature is on a stored key exactly if it was before or a key on the list that is not blacklisted brought it. |
| MergeShape.DirectStays | keydb/keydb.c:172-246 | Through every run, in either mode, the direct signatures of a stored key stay, in their places. |
| DeltaReplay.ReplayKey | merge.c:486-568 | Merging a key and merging only its delta give the same key, and the same delta again. |
| DeltaReplay.DeltaReplication | keydb/keydb.c:172-246 | A replica that starts with the same store and applies only the list passed on ends with exactly the same store. |
| Minimality.DroppedIff | keydb/keydb.c:195-225 | A key is dropped from the list exactly if it is blacklisted or every packet and signature of it is known. |
| Minimality.AddedCount | keydb/keydb.c:172-246 | The result is the number of fingerprints the store has afterwards and had not before. |
| Minimality.KeyUnchangedIff | merge.c:486-568 | A merge leaves the stored key as it was exactly if every incoming signature is known or superseded. |
| Minimality.PassedOnForNothingIff | keydb/keydb.c:185-246 | For any blacklist and either mode: a key stays on the list although the store did not change exactly if it is not blacklisted and either it is stored, not wholly known, and all it brings is known or superseded, or it is not stored and only updates are wanted. |
| Minimality.UpdateOnlyExample | keydb/keydb.c:199-204 | An empty store that only updates: the key is passed on and not kept. |
| FetchFallback.StepWithIs | keydb/keydb.c:197-240 | With a fetch that falls back to subkeys, a turn is that on the map by primary fingerprint unless the fingerprint is that of a stored subkey. |
| FetchFallback.StoredIff | keydb/keydb.c:197-240 | A key is stored afterwards exactly if it was, or it is not blacklisted, keys may be added and no stored key has its fingerprint for a subkey. |
| FetchFallback.PassedOnIff | keydb/keydb.c:197-240 | A key stays on the list although the store did not change exactly in three cases: nothing new for the key found, not found with update-only, or found under a subkey of a key with another key id and not bare. |
| FetchFallback.Db4Finds | keydb/keydb_db4.c:299-366 | The db4 backend with agreeing tables fetches in that way. |
| FetchFallback.ForeignExample | keydb/keydb.c:197-240 | A key with the fingerprint of a stored subkey is not stored and passed on. |
| Minimality.RestIff | keydb/keydb.c:172-246 | Sending back a delta has nothing left to say exactly if every signature of it is represented in the merged key. |
| Minimality.SettlesV4 | merge.c:222-238 | For version 4 signatures that are not superseded the exchange comes to rest. |
| Minimality.StaleBounces | keydb/keydb.c:172-246 | A superseded signature is passed on every time it comes in, for any number of exchanges. |
| Minimality.StaleExample | keydb/keydb.c:195-225 | A concrete store and key: nothing changes and the key is passed on all the same. |
| Join.NewestMerge | merge.c:358-410 | The newest certification of a signer class after a merge is the newer of the two. |
| Join.MergeIsJoin | merge.c:486-568 | On every cell of packet and signer class a merge is the maximum: commutative, associative, idempotent. |
| Join.UpdateIsJoin | keydb/keydb.c:172-246 | A whole run takes every cell to the maximum of what was stored and what was offered. |
| Join.Convergence | keydb/keydb.c:172-246 | Two runs on the same keys in any order and repetition end with the same cells. |
| Join.SyncKeepsUp | keydb/keydb.c:172-246 | A peer that was not behind before and applies what is passed on is not behind afterwards. |
| Join.RevokedMergeIff | merge.c:222-238 | After a merge a packet is revoked exactly if it was, or an incoming revocation was not taken for known. |
| Join.RevokedMergeV4 | merge.c:222-238 | With version 4 signatures, a packet is revoked after a merge exactly if it was on either side. |
| Join.LostV5Revocation | merge.c:222-238 | Any version 5 revocation with issuer and time of a stored version 5 certification is lost. |
| Join.RevokedSurvivors | decodekey.c:458-478 | Collapsing signatures neither makes a packet revoked nor unrevokes it. |
| Join.RevocationSurvives | decodekey.c:458-478 | A user id that is revoked in the store stays revoked through every later run. |
| Duplicates.SingleDistinct | cleankey.c:42-124 | Afterwards no packet is listed twice, and the same packets are listed as before. |
| Duplicates.SingleFixed | cleankey.c:42-124 | A list is left alone and nothing is counted exactly if no packet was listed twice. |
| Duplicates.SingleKeepsLevels | cleankey.c:42-124 | Merging duplicates loses no signer's newest certification on any packet. |
| Duplicates.DedupPackets | cleankey.c:42-124 | The nested loops compute that list and count the packets merged away. |
| CapUids.SparedAtMostTwo | cleankey.c:456-486 | Of the active packets at most two are spared, one as first primary, one as first anchor besides it. |
| CapUids.CapCounts | cleankey.c:422-500 | With room for two or more, exactly the smaller of number and maximum is left of active and of revoked packets. |
| CapUids.SparedKept | cleankey.c:456-486 | The first active primary and the first active anchor are never dropped, whatever the maxima. |
| Meanings.SparedMeans | cleankey.c:456-486 | Spared are exactly the first active packet marked primary and the first active anchor not spared for that. |
| Meanings.OldestGo | cleankey.c:450-497 | Of two packets of a class that are not spared, the older one goes first. |
| CapUids.SweepIsKept | cleankey.c:450-497 | Counting down while walking drops exactly the oldest loose active and the oldest revoked packets. |
| CapUids.CapIdempotent | cleankey.c:422-500 | A second run drops nothing. |
| CapUids.LastStaysIff | cleankey.c:450-497 | The last packet stays on every list exactly if the maxima are at least three active and one revoked. |
| CapUids.LastCanGo | cleankey.c:450-497 | With a maximum of two or less, the last of a primary, an anchor and an ordinary packet is dropped. |
| CapUids.CapPacketType | cleankey.c:422-500 | Both passes together leave the capped list, in its order, and count what was dropped. |
| CleanTails.LargeLast | cleankey.c:514-557 | The last packet stays exactly if it is within its limit; the rest of the list does not depend on it. |
| CleanTails.DuplicateLast | cleankey.c:42-124 | The last packet stays exactly if no earlier one is the same. |
| CleanTails.SigLast | cleankey.c:138-245 | The last signature stays exactly if it is not judged bad. |
| CleanTails.CheckedLast | cleankey.c:247-273 | The last packet stays exactly if not all is verified or it has a self-signature. |
| CleanKeys.CleanedTidy | cleankey.c:651-745 | Whatever comes in and whatever checks say, the key has no repeated packet, one signature per signer class, at most 64 UIDs and 8 UATs under the caps, and no more signatures per packet than configured. |
| CleanKeys.RunTidy | cleankey.c:640-755 | Every key left on the list is of version 4 or later, has a user id and is tidy. |
| CleanKeys.RunFeedsUpdate | cleankey.c:640-755 | What cleaning leaves is what the update and its theorems ask of incoming keys. |
| CleanKeys.CollapsedKeeps | cleankey.c:688-712 | The signature collapse does not move any packet between active and revoked, so caps met before are met after. |
| CleanKeys.SecondRunIdle | cleankey.c:651-745 | Without signature caps and checks a second pass changes nothing on a key and counts nothing. |
| CleanKeys.SecondRun | cleankey.c:640-755 | The same for a list: a second run returns 0 and leaves the list. |
| CleanKeys.NothingTrimmedIff | cleankey.c:666-728 | Before checks, a key is changed exactly if something is counted for it. |
| CleanKeys.DropLarge | cleankey.c:514-557 | The loop leaves the packets within their limits and counts the others. |
| CleanKeys.CapSigs | cleankey.c:580-628 | The loops leave the first signatures of each packet of the tag, up to the maximum, and count what they drop. |
| Meanings.CutMeans | cleankey.c:580-628 | Exactly the first signatures stay, as many as the maximum allows. |
| Meanings.LimitsAre | cleankey.c:514-557 | The limits in octets and the maxima of packets. |
| Meanings.AnchorMeans | cleankey.c:408-420 | An anchor starts with "UID:urn:". |
| Meanings.KindMeans | cleankey.c:437-447 | How a packet counts for a cap. |
| Meanings.RevokedMeans | decodekey.c:458-478 | Revoked is a packet with a version 4 or 5 signature of type 0x30. |
| CleanKeys.CheckPackets | cleankey.c:247-290 | The loops leave what the verdicts leave, with the need of self-signatures and of another key's signature, and count only bad signatures. |
| CleanReturn.NothingTrimmedMeans | cleankey.c:651-728 | Nothing is counted before the checks exactly for a key without oversized or repeated packets, with one signature per signer class and within all caps. |
| CleanReturn.CountIff | cleankey.c:651-742 | Nothing at all is counted for a key exactly if it is in that order and no signature on it is judged bad. |
| CleanReturn.CountedIsChange | cleankey.c:651-742 | Whenever something is counted the key ends up different. |
| CleanReturn.UncountedIff | cleankey.c:247-290 | A key for which nothing is counted stays as it is exactly if, under full verification, every packet has a self-signature and another key's signature is there if needed. |
| CleanReturn.ReturnValueIff | cleankey.c:630-755 | For every list and policy: the result exceeds the number of keys removed or altered by the keys left alone behind the first counted one, less those touched uncounted before it; it is that number exactly if these two are equally many. |
| CleanReturn.ZeroIff | cleankey.c:630-755 | The result is 0 exactly if every key is left alone or touched uncounted; the list stays as it was exactly if every key is left alone. |
| CleanReturn.SilentRemoval | cleankey.c:743-752 | A key without user ids is removed with a result of 0, under any policy. |
| CleanReturn.UncountedRemoval | cleankey.c:264-287 | A user id without a self-signature is removed with a result of 0; where another key's signature is needed, a second run removes the key. |
| CleanReturn.OverCount | cleankey.c:645-755 | Two keys, one cleaned: the result is 2. |
| CleanTwice.SecondRunIff | cleankey.c:640-755 | For every list and policy: a second run returns 0 and leaves the list exactly if no key left by the first has active packets over a cap and each has another key's signature where needed. |
| CleanTwice.RevocationCut | cleankey.c:580-628 | Five user attributes, one revoked by its second signature, one signature kept: the first run leaves five, the second changes the key. |
| CleanKeys.CleanKeyList | cleankey.c:640-755 | The loop computes that list and that result. |
| KeyGraph.Graph.ReverseReach | gpgstats-0.0.2/dotrees.c:141-172 | Following signatures one way reaches a key exactly if following them the other way leads back. |
| Components.VisitColours | gpgstats-0.0.2/dotrees.c:141-172 | What a visit blackens can be reached through white keys; nothing turns grey, and no link leads from a black key to a white one. |
| Components.VisitExact | gpgstats-0.0.2/dotrees.c:141-172 | A visit blackens exactly the white keys it can reach through white keys. |
| Components.VisitOrders | gpgstats-0.0.2/dotrees.c:141-172 | Finish order: what is finished earlier has no link into what is finished later and not reached back. |
| Components.LateReaches | gpgstats-0.0.2/dotrees.c:174-194 | In a good finish order, whoever reaches a later finisher is reached by it. |
| Components.KeyRing.Dfs | gpgstats-0.0.2/dotrees.c:174-194 | The first pass lists every key once, in an order fit for the second pass. |
| Components.RootIsComponent | gpgstats-0.0.2/dotrees.c:196-217 | A root of the second pass collects exactly the keys mutually reachable with it. |
| Components.KeyRing.FindTrees | gpgstats-0.0.2/dotrees.c:174-217 | Both passes partition the keys into exactly the strongly connected components. |
| TrustWalks.Net.SearchDone | stats.c:69-123 | When the queue has run dry, every key a chain of eligible signers leads to is coloured. |
| TrustPaths.SearchOutcome | stats.c:69-123 | When the queue runs dry or the key is met, the key is coloured exactly if a chain of eligible signers leads to it. |
| TrustPaths.AllOutcome | stats.c:269-319 | When the queue has run dry, exactly the reachable keys are coloured, each with its distance. |
| TrustWalks.Net.LayerDone | stats.c:100-117 | After a layer everything at its distance is coloured, and the keys found are the next work list. |
| TrustWalks.Net.TrailIsTrail | stats.c:195-250 | Following parents drops the colour by one each step until the wanted key, also when that was coloured itself. |
| TrustPaths.SignersAre | keydb/keydb.c:97-104 | The signers of a key are the issuers on all its UIDs, one UID after the other, the last one first; so a key is a signer exactly if it issued a signature on some UID. |
| TrustPaths.StatsCache.GetKeySigs | keydb/keydb.c:86-121 | The loops compute these signers and the revoked flag. |
| TrustPaths.StatsCache.CachedGetKeySigs | keydb/keydb.c:123-157 | The cache agrees with the store after any number of calls, and the reverse links are its transpose. |
| TrustPaths.StatsCache.FindPath | stats.c:69-123 | The key is coloured exactly if reachable; colours are least chain lengths; the count is the number of coloured keys, while flags load lazily. |
| TrustPaths.StatsCache.DoFindPath | stats.c:136-264 | At most the asked number of paths. The first search bars exactly what was disabled or flagged at the call, and the two keys if they are revoked; each path is shortest among keys not barred then, and its inside is disabled for the next. The loop stops early exactly after a path of a single signature or a search that finds none; only the last path can be a single signature. |
| TrustPaths.ReportedPaths | stats.c:162-264 | Reported paths are pairwise disjoint inside and never get shorter. |
| TrustPaths.ReportedDiffer | stats.c:252-261 | No path is reported twice, and a single signature is reported only alone. |
| TrustPaths.RoundBars | stats.c:162-264 | A search bars what the first one did and the insides of the paths before it, and beyond that only revoked keys. |
| TrustPaths.FixedFlags | stats.c:162-264 | With all flags loaded, each path is shortest in exactly the graph without the insides of earlier ones, and no revoked key lies inside it. |
| LateFlags.AvoidsRevokedIff | stats.c:86-103 | For a store and what is disabled or flagged at a call: no shortest chain between any two keys leads through a revoked key exactly if no unflagged revoked key was signed by an eligible key and signed one which that key did not sign itself. |
| LateFlags.ReportAvoids | stats.c:162-264 | Then no reported path of any round leads through a revoked key. |
| LateFlags.RevokedOnPath | stats.c:86-103 | Three keys: with a fresh cache a path through the revoked one is reported, once its flag is loaded none is. |
| TrustPaths.StatsCache.FurthestKey | stats.c:269-319 | A key of maximal distance among all that are reachable. |
| TrustPaths.StatsCache.CountDegree | sixdegrees.c:32-90 | The number of keys within the bound, along signers or along keys signed; a negative bound, compared unsigned, is out of reach. |
| TrustPaths.CountOutcome | sixdegrees.c:32-90 | A search stopped at a depth has coloured exactly the keys within it. |
| Subpackets.WalkFindsAll | decodekey.c:63-193 | Walking a written list of subpackets, lengths in any of the three forms, finds each with type and body, but for a last one without body. |
| Subpackets.ReadLength | aged.c:104-121 | The length a walker reads is the decoder's, with the four-octet guard. |
| Subpackets.ReadLengthStrict | decodekey.c:72-92 | The stricter guard accepts and refuses exactly the same inputs. |
| Subpackets.FindKeyExpiry | aged.c:84-133 | The value of the first key expiry subpacket of the hashed area, 0 without one or for a malformed area. |
| Subpackets.IsPrimary | cleankey.c:343-392 | Some certification on the packet carries a non-zero primary flag before anything malformed. |
| Subpackets.ParseSubpackets | decodekey.c:46-193 | Issuer, creation time and status are those of noting the decoded subpackets in order up to the first refused one. |
| Meanings.CreationNoted | decodekey.c:95-111 | A subpacket of type 2 gives the creation time in its four octets. |
| Meanings.IssuerNoted | decodekey.c:116-137 | A subpacket of type 16 gives the issuer in its eight octets. |
| Meanings.FingerprintNoted | decodekey.c:138-147 | One of type 33 gives the last eight octets of a fingerprint of 20, the first eight of one of 32. |
| Meanings.OtherNoted | decodekey.c:148-190 | Any other type says nothing, and a critical one outside 2 to 12 and 16 to 33 is refused. |
| Meanings.HashedArea | aged.c:84-133 | Key expiry is type 9, the primary flag type 25 on certifications 0x10 to 0x13. |
| WireValues.SubpacketLengths | decodekey.c:63-92 | The three forms of a length say what RFC 4880 says. |
| PacketStream.HeadReadBack | parsekey.c:216-325 | A written header is read back as tag, format, place and length, for every form. |
| WireValues.HeaderMeans | parsekey.c:425-495 | The octets of a header spell tag, format and length as section 4.2 of RFC 4880 does. |
| WireValues.HeaderExamples | parsekey.c:425-470 | The example lengths of section 4.2.3 of RFC 4880. |
| WireValues.VersionsRead | parsekey.c:356-390 | Which versions pass for which tags. |
| PacketStream.HeadCut | parsekey.c:216-325 | A stream that ends inside a header is refused. |
| PacketStream.CutStreamReads | parsekey.c:185-414 | A written stream cut anywhere reads as exactly the packets wholly before the cut, with an error exactly if the cut is not on a boundary. |
| PacketStream.LimitedRead | parsekey.c:210-213 | With a limit on keys, a written stream is read up to right behind the last wanted key's first packet; that is all of the wanted keys exactly if the stream ends there or another key follows. |
| PacketStream.LimitedExample | parsekey.c:210-213 | A key and its user id, one key wanted: the user id is not read. |
| PacketStream.FollowedIff | parsekey.c:353-405 | A written stream followed by any octets: all its packets are returned exactly if there are none, nothing follows or the next octet starts a packet; otherwise all but the last. |
| PacketStream.FollowedExample | parsekey.c:353-405 | A user id packet and a line feed: nothing is returned. |
| PacketStream.ReadStream | parsekey.c:185-414 | The reading loop returns the status and the packets of the scan. |
| PacketStream.WrittenWhole | parsekey.c:425-507 | Packets the reader takes back are written in full, without an error. |
| PacketStream.WrittenFineIff | parsekey.c:437-470 | The writer gives up exactly if a new-format packet has 2^32 - 1 octets or more. |
| PacketStream.WriteStream | parsekey.c:425-507 | The writing loop writes the packets one after the other, headers in the shortest form the writer uses, up to one it refuses. |
| KeyGrammar.ParseAfterFlatten | parsekey.c:517-574 | Parsing what was flattened rebuilds every well-tagged list of keys, revoked flags included. |
| KeyGrammar.FlattenAfterParse | parsekey.c:41-154 | Flattening what was parsed gives the packets back without the ignored kinds. |
| KeyGrammar.ParsedWellTagged | parsekey.c:60-95 | Every accepted key has each packet in its place and is marked revoked exactly if a direct signature revokes it. |
| Meanings.FlagTurns | parsekey.c:60-95 | A direct signature turns the flag with octet 0 being 3 and octet 2 being 0x20, or octet 0 being 4 and octet 1 being 0x20. |
| KeyGrammar.AcceptedIff | parsekey.c:41-154 | Packets are accepted exactly if a key comes first and no user id follows a subkey. |
| KeyGrammar.ParseKeys | parsekey.c:41-154 | The parsing loop computes that, adding to keys already listed, and counts the new ones. |
| KeyGrammar.FlattenKeys | parsekey.c:517-574 | The flattening loops list every packet in order. |
| Armor.CrcOctet | armor.c:186-192 | The running checksum never leaves 24 bits. |
| Crc24.CrcIsRemainder | armor.c:186-192 | The checksum is the one number below 2^24 that differs by a multiple of the generator of section 6.1 of RFC 4880, as polynomials over two elements, from the data with 0xB704CE in front and 24 zeros behind. |
| Crc24.CrcLeavesZero | armor.c:137-153 | Data followed by its checksum has the checksum zero. |
| WireValues.AlphabetIs | armor.c:45-64 | The 64 characters are those of section 6.3 of RFC 4880. |
| WireValues.GroupMeans | armor.c:112-180 | Three octets become four characters of six bits each, highest first, and the ends are filled up with equals signs. |
| Armor.PutAllFeed | armor.c:112-203 | From any point in a group of three, reading what is written gives the octet held back and all that follow. |
| Armor.BodyReadsBack | armor.c:262-321 | Armored data followed by anything reads back exactly, for all three residues. |
| Armor.LinesOf64 | armor.c:194-200 | A line break is written exactly after every 64 characters. |
| Armor.CrcCharsReadBack | armor.c:137-153 | The four characters behind the equals sign are the checksum. |
| Armor.ScannerFindsData | armor.c:365-401 | With any header lines, the scanner stops exactly behind the first blank line. |
| Armor.ArmorRoundTrip | armor.c:323-415 | Armoring and dearmoring give the same octets and then the end. |
| Armor.ArmorStream | armor.c:323-349 | The context's methods write exactly that text. |
| Armor.ArmorContext.PutChar | armor.c:160-203 | One octet: characters, column, held back bits and checksum. |
| Armor.DearmorContext.GetChar | armor.c:262-310 | One octet of what is still to come, or the end; the checksum follows. |
| Armor.DearmorContext.ReadAll | armor.c:262-321 | Reading to the end gives all of the data and its checksum. |
| Transfer.KeysComeBack | armor.c:351-415 | Keys flattened, written, armored, scanned, decoded, read and parsed are the same keys. |
| Transfer.LimitedKeys | parsekey.c:185-213 | Keys flattened, written, read with a limit and parsed: the last one comes bare and not revoked; they are the keys asked for exactly if there are fewer than the limit or the last one was bare. |
| Db4Index.StoreAgrees | keydb/keydb_db4.c:990-1304 | Storing, with update exactly if the key is there, keeps all tables equal to what is derived from the keys. |
| Db4Index.DeleteAgrees | keydb/keydb_db4.c:660-976 | Deleting takes out exactly what was derived from the key. |
| Db4Index.DeleteAgreesIff | keydb/keydb_db4.c:660-976 | After deleting a fingerprint the tables agree with the remaining keys exactly if it was that of a stored key or of no subkey. |
| Db4Index.DeleteBySubkey | keydb/keydb_db4.c:660-976 | Deleting by the fingerprint of the only subkey leaves the key, which that fingerprint no longer finds. |
| Db4Index.RunAgrees | keydb/keydb_db4.c:660-1304 | After every run of stores and deletes the five tables agree with the stored keys, multiplicities included. |
| Db4Index.FetchFinds | keydb/keydb_db4.c:299-389 | By fingerprint the key, by a subkey's fingerprint the key it belongs to, otherwise nothing. |
| Db4Index.KeyIdIs | keyid.c:40-66 | The id of a fingerprint is its last eight of 20 octets or first eight of 32, highest first, and below 2^64. |
| Db4Index.IdFinds | keydb/keydb_db4.c:419-493 | An id leads to a key exactly if those octets of its fingerprint or of a subkey's spell it; a 32-bit id, if the last four of them do. |
| Db4Index.Db4Store.StoreKey | keydb/keydb_db4.c:990-1304 | The loops of puts make the tables the model says. |
| Db4Index.Db4Store.DeleteKey | keydb/keydb_db4.c:660-976 | The loops of cursor deletions make the tables the model says, from the stored octets. |
| Db4Codec.FetchUndoesStore | keydb/keydb_db4.c:1040-1082 | The octets stored for a key parse to that key. |
| Db4Codec.CodecSound | keydb/keydb_db4.c:367-377 | So the agreement holds for the octets the backend writes. |
| KeyArray.Search | keyarray.c:42-88 | The binary search finds where a fingerprint is or belongs. |
| KeyArray.KeyArray.Find | keyarray.c:42-65 | Membership. |
| KeyArray.KeyArray.Add | keyarray.c:67-121 | The array stays strictly ascending and gains exactly the fingerprint. |
| Meanings.FingerprintOrder | keyarray.c:30-40 | The shorter fingerprint comes first, of equal lengths the one with the lower octet at the first difference. |
| WordList.WordsExact | wordlist.c:41-76 | The words are exactly the longest stretches without separators. |
| WordList.ListExact | wordlist.c:41-76 | The list has no repetitions and exactly the lower-cased words of two characters or more. |
| WordList.MakeWordList | wordlist.c:41-76 | The scan with two marks computes that list. |
| TextSearch.Search | keydb/keydb_db4.c:503-605 | The keys fetched are listed under every word, ascending, at most the maximum; any other such key comes after them, and only if the maximum is reached. |
| TextSearch.AnswerUnique | keydb/keydb_db4.c:503-605 | There is only one such answer. |
| TextSearch.SearchMeans | keydb/keydb_db4.c:503-605 | With agreeing tables these are the stored keys that have all the words. |
| StreamHash.FoldConcat | md5.c:57-71 | Hashing blocks in portions is hashing them at once. |
| StreamHash.AddCounts | md5.c:71-73 | Two 32-bit words with a carry count modulo 2^64. |
| Md5.Md5Context.Update | md5.c:273-342 | The message grows by exactly the octets given, also with a whole block waiting and on unaligned input. |
| Md5.Md5Context.Digest | md5.c:245-270 | The digest is the fold over the padded message with its length in bits. |
| Md5.HashPieces | md5.c:245-342 | However a message is cut into updates, the digest is that of the whole. |
| WireValues.Md5Abc | md5.c:245-270 | The padded message for "abc", length low octet first. |
| Sha1.AddOctetsCounts | sha1.c:125-128 | The bit count in two words is eight times the octets modulo 2^64. |
| Sha1.Sha1Context.Update | sha1.c:120-140 | The message grows by exactly the octets given. |
| Sha1.Sha1Context.Digest | sha1.c:145-184 | The digest is the fold over the padded message, padding put in octet by octet. |
| Sha1.HashPieces | sha1.c:120-184 | However a message is cut into updates, the digest is that of the whole. |
| WireValues.Sha1Abc | sha1.c:145-184 | The padded message for "abc", length high octet first. |
| WireValues.OctetsOf | sha1.c:145-160 | A number in eight octets, highest first, and the other way round for MD5. |
| SksHash.LessOrder | merge.c:42-59 | The packet comparison is a strict total order on tag and content. |
| Meanings.PacketOrder | merge.c:42-59 | The lower tag comes first; with equal tags the lower octet at the first difference, or the one that ends there. |
| SksHash.SortedResult | keyid.c:254-273 | Insertion gives a sorted list of the same packets. |
| SksHash.SksInputCanonical | keyid.c:275-310 | What is hashed depends only on the multiset of a key's packets. |
| WireValues.RecordExample | keyid.c:290-305 | A packet is hashed as tag and length in four octets each, high first, then its body. |
| SksHash.Hash | keyid.c:275-310 | The hash is MD5 over the records of the sorted packets. |
| TemplateText.FindPastTree | template.c:382-451 | The search for a section's end passes over any well-nested template with its depth unchanged. |
| TemplateText.FindOwnEnd | template.c:382-451 | A section ends at its own closing tag, whatever names are nested in it. |
| TemplateText.FindSectionEnd | template.c:382-451 | The cursor loop computes that search on any text. |
| TemplateRender.LookupName | template.c:240-277 | A dotted name means the innermost frame that has its first segment, then down the maps. |
| TemplateMeanings.NameIs | template.c:240-277 | A name without a dot is the value in the innermost frame that has it; a dot alone is the current value. |
| TemplateMeanings.DottedIs | template.c:240-277 | Behind a dot, the name goes down into the map found so far. |
| TemplateMeanings.SyntaxIs | template.h:27-45 | Text, variables and comments as documented. |
| TemplateMeanings.SectionSyntaxIs | template.h:27-45 | Sections and inverted sections as documented. |
| TemplateMeanings.SectionTwins | template.c:280-297 | Which of a section and its inverted twin is written, for each kind of value. |
| TemplateMeanings.ItemsInOrder | template.c:457-495 | Items are written in order, each as the innermost frame. |
| TemplateMeanings.EmitIs | template.c:344-374 | What is written for each kind of value. |
| TemplateMeanings.DigitsAre | template.c:344-374 | Integers are written in decimal, without leading zeros. |
| TemplateMeanings.EscapeIs | template.c:315-342 | Five characters become their entities, any other one stays. |
| TemplateRender.EscapeSafe | template.c:315-342 | Escaped text has no angle bracket and no quote. |
| TemplateRender.EscapeInvertible | template.c:315-342 | Escaping can be undone. |
| TemplateRender.RenderTree | template.c:497-610 | Rendering a printed tree in the middle of a text writes its meaning and goes on behind it. |
| TemplateRender.RenderIsEval | template.c:612-623 | For every tree in the documented syntax and every value, rendering succeeds and writes what the tree means. |
| TemplateRender.RenderRange | template.c:497-610 | The loop, on any text, well-formed or not, writes and returns what the functional renderer does. |
| TemplateRender.RenderSectionBody | template.c:457-495 | Lists, inverted and plain sections. |
| TemplateRender.RenderTemplate | template.h:27-45 | Running the loop on a printed tree writes its meaning. |

## Left out

- Sockets, files, CGI, mail, other storage backends, configuration and logging: no logic beyond plumbing.
- Signature verification and hashing of signed data: the cleaning pipeline takes any verdict on each signature.
- Bodies of the MD5 and SHA-1 block functions: any functions of state and block.
- `sha1x.c`, `keydb/keydb_stacked.c`, `keydb/keydb_keyring.c`, `generic_fetch_key`: not part of this model.
- Signatures are decoded records in the replication and cleaning files; that version, type, issuer and creation time are defined is assumed there, and only `Subpackets` reads octets. `sig_info` itself, which picks hashed or unhashed areas, is not modelled.
- The store of the replication theorems is a map by primary fingerprint; the fall-back to subkeys on fetching is modelled in `Db4Index` and, for one turn of the update, in `FetchFallback`.
- Fetching, storing and sending keys is taken to succeed; database deadlocks and the interrupt flag do not occur.
- Integers are unbounded where the C code counts list entries or characters on a line; the 32-bit counters of the hashes, key ids and lengths in octets are explicit.
- `CapUids`, `Duplicates` and `CleanKeys` keep lists as sequences: removal in place is a cursor between two sequences, and the tail pointers of the user id list are not followed.
- Nodes and tail pointers are real only in `SigLists`, whose `MergePacketSigs` stands alone: `PublicKeys`, `Duplicates` and `CleanKeys` hold lists as sequences and use the function it is proved to compute.
- CapUids.CapCounts: asks for a maximum of two or more; below that the spared packets can exceed the maximum, and the code is never used that way.
- CapUids.CapIdempotent: asks for the same.
- Md5.Md5Context.Update: takes less than 2^32 octets at a time, as the length parameter does.
- Sha1.Sha1Context.Update: takes less than 2^32 - 64 octets at a time; above that the C sum of fill and length wraps.
- PacketStream.WriteStream: asks for tags that fit into the first octet, as every tag the reader makes does; a larger one would spill into the format bits.
- An empty body of a packet whose version is checked: the C reader looks at an octet that is not there; the model refuses the packet.
- Armored text that ends without an equals sign or dash: the C decoder never stops, the methods of `Armor.DearmorContext` ask for one.
- Templates with braces in text or blanks inside tags are rendered by `TemplateRender.Render` as the code does, but the theorem about trees prints neither.
- Rendering integers of a value is decimal notation; `snprintf` is not modelled.
- The text search assumes that a cursor lists the entries of a word once each.
- `key_expiration_time` and `key_is_aged_or_expired`, `keyuids` and `keysubkeys`, `makewordlistfromkey`, `hash.c`: they would only add easy members.
