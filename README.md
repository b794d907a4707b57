# PCCap: proof-carrying capabilities, modelled in Dafny

This project models the proof-carrying capability (PCCap) core of the Python
gateway in `reference/python_gateway/src/csp_gateway/pccap.py`. A PCCap token is a signed, scoped and expiring permit for one
high-risk tool call. The model covers the following:

- the scope (`PCCapScope`) and its request matcher, including the POSIX path arithmetic (`normpath`, `abspath`, `commonpath`) it depends on;
- the token (`PCCapToken`), its dictionary form, and the canonical JSON bytes its signature covers;
- the HMAC keyring and its base64 tags;
- the in-memory token store;
- minting and enforcement;
- the policy engine that answers a request with a named token, or finds one for the requesting principal.

Modules, in dependency order:

- `Wrappers`: `Option` and `Result`.
- `Text`: UTF-8 encoding, and Python's decimal rendering of integers.
- `JsonText`: a JSON value type and `json.dumps(sort_keys=True, separators=(",", ":"))`. It also has a decoder, used only as a proof device: it shows the text determines the value.
- `PosixPaths`: `str.split("/")`, `os.path.normpath`, `abspath` and `commonpath` on POSIX.
- `Scopes`: `PCCapScope`, `matches_request`, and `to_dict`/`from_dict`.
- `Tokens`: `PCCapToken`, `to_dict`/`from_dict`, `is_expired` and `canonical_bytes`.
- `Base64`: `base64.b64encode`, its inverse, and `rstrip("=")`.
- `Keyrings`: `Keyring`, with `sign` and `verify`.
- `Stores`: `PCCapStore`. It is a class over pure `StoreState` functions, which specify its methods.
- `Capabilities`: token ids, `mint_pccap`, `mint_pccap_fs_delete`, `enforce_pccap` and `enforce_pccap_for_fs_delete`.
- `Engine`: `PCCapPolicyEngine`. It is a class whose methods are proved against the pure function `Evaluate`.

Things the source reads from its environment become parameters:

- the clock becomes `now`;
- `os.getcwd()` becomes `cwd`;
- `os.urandom` becomes the random bytes or the id and nonce supplied by the caller;
- the HMAC-SHA256 function becomes a function value held by the keyring, left uninterpreted.

Because the MAC is uninterpreted, the security statements say what a forgery would need. A tampered or foreign token verifies only if the MAC gives the same digest for two different canonical byte strings, or for two keys. That follows from the canonical bytes being injective on the signed fields, which is proved: `Tokens.CanonicalBytesInjective`.

`Capabilities.CodeName` gives the decision codes as the source spells them. That covers the six members of `ReasonCodePCCap`, and the two strings the engine writes out itself, `DENY_NO_PCCAP` and `DENY_PCCAP_NOT_FOUND`. Like the engine's loop, `Engine.AutoScan` skips a token whose `enforce_pccap` fails and keeps looking.

## Model

| member | source | states |
|---|---|---|
| Text.Utf8OfAscii | reference/python_gateway/src/csp_gateway/pccap.py:222 | `.encode()` of an ASCII text is one byte per character, equal to its code |
| Text.Utf8AsciiInjective | reference/python_gateway/src/csp_gateway/pccap.py:222 | two ASCII texts with the same UTF-8 bytes are equal |
| Text.Utf8LengthBounds | reference/python_gateway/src/csp_gateway/pccap.py:146 | the UTF-8 length of `str(content)` lies between one and four bytes per character, and equals the character count exactly for ASCII |
| Text.DecimalRoundTrip | reference/python_gateway/src/csp_gateway/pccap.py:222 | reading back the decimal digits of a natural number gives the number |
| Text.IntDecimalPrefixFree | reference/python_gateway/src/csp_gateway/pccap.py:222 | the decimal text of an integer followed by a non-digit fixes both the integer and the rest |
| JsonText.SortByKeyCorrect | reference/python_gateway/src/csp_gateway/pccap.py:222 | the `sort_keys` ordering sorts members by key and is a permutation of them |
| JsonText.SortCommutes | reference/python_gateway/src/csp_gateway/pccap.py:222 | sorting members by key commutes with rendering or canonicalising their values |
| JsonText.HexRoundTrip | reference/python_gateway/src/csp_gateway/pccap.py:222 | a `\\uXXXX` escape gives back its code unit |
| JsonText.UnescapeEscape | reference/python_gateway/src/csp_gateway/pccap.py:222 | each character's JSON escape reads back as that character |
| JsonText.ParseQuoted | reference/python_gateway/src/csp_gateway/pccap.py:222 | a quoted, escaped string reads back as the original string, leaving the rest of the text |
| JsonText.ParseIntOfDecimal | reference/python_gateway/src/csp_gateway/pccap.py:222 | an integer's JSON text reads back as the integer |
| JsonText.ParseMembersText | reference/python_gateway/src/csp_gateway/pccap.py:222 | the text of sorted object members reads back as those members, canonicalised |
| JsonText.ParseDumps | reference/python_gateway/src/csp_gateway/pccap.py:222 | the compact sorted text of any JSON value reads back as that value with every object sorted by key |
| JsonText.DumpsInjective | reference/python_gateway/src/csp_gateway/pccap.py:222 | two JSON values with the same text agree once every object is sorted by key |
| JsonText.DumpsAscii | reference/python_gateway/src/csp_gateway/pccap.py:222 | with `ensure_ascii`, the text is pure ASCII |
| JsonText.LookupSorted | reference/python_gateway/src/csp_gateway/pccap.py:222 | for distinct keys, sorting a dict's members does not change the value found under any key |
| JsonText.LookupMember | reference/python_gateway/src/csp_gateway/pccap.py:197-211 | in a dict with distinct keys, the value found under a member's key is that member's value |
| JsonText.LookupAbsent | reference/python_gateway/src/csp_gateway/pccap.py:197-211 | a key no member carries is absent |
| JsonText.DumpsByMembers | reference/python_gateway/src/csp_gateway/pccap.py:222 | an object's text is fixed by its keys and the texts of its values |
| JsonText.DumpsIgnoresMemberOrder | reference/python_gateway/src/csp_gateway/pccap.py:222 | the order a dict holds its members in does not reach the sorted text |
| PosixPaths.JoinSplit | reference/python_gateway/src/csp_gateway/pccap.py:123 | joining the pieces of `split("/")` gives back the original text |
| PosixPaths.SplitJoin | reference/python_gateway/src/csp_gateway/pccap.py:123 | splitting joined slash-free pieces gives back the pieces |
| PosixPaths.NormpathShape | reference/python_gateway/src/csp_gateway/pccap.py:125 | `normpath` keeps the leading-slash count (one or two) and renders the resolved components |
| PosixPaths.NormpathNoDotDot | reference/python_gateway/src/csp_gateway/pccap.py:125-126 | a path without `..` pieces has none after `normpath`, and its components are unchanged |
| PosixPaths.AbsPathIsAbs | reference/python_gateway/src/csp_gateway/pccap.py:129-130 | under an absolute working directory `abspath` is absolute |
| PosixPaths.CanonicalAbsolutePath | reference/python_gateway/src/csp_gateway/pccap.py:125-131 | a clean absolute path is its own `normpath` and `abspath`, and its components are its parts |
| Scopes.CheckPathCharacterized | reference/python_gateway/src/csp_gateway/pccap.py:117-137 | the path check accepts a request path exactly when it has no `..` piece, both absolute forms are rooted alike, and the prefix's components lead the request's |
| Scopes.ContainmentUnderAbsoluteCwd | reference/python_gateway/src/csp_gateway/pccap.py:117-137 | with an absolute working directory, a path is accepted exactly when it has no `..` piece and the prefix, rooted at one slash, is a component-wise leading run of it; a prefix with a double-slash root never matches |
| Scopes.PathArgumentIsFirstTruthy | reference/python_gateway/src/csp_gateway/pccap.py:119-120 | the path checked is the first truthy of `path`, `file_path` and `target` |
| Scopes.PinFailureCharacterized | reference/python_gateway/src/csp_gateway/pccap.py:150-154 | pinned arguments fail exactly when some pinned key's value differs under Python equality, and the failure names the first such key in insertion order |
| Scopes.MatchesRequestCharacterized | reference/python_gateway/src/csp_gateway/pccap.py:107-156 | a request matches exactly when tool, path, size and pins all hold; a failure names the first failing check in the order tool, path, size, pins |
| Scopes.ExtraArgumentsIgnored | reference/python_gateway/src/csp_gateway/pccap.py:107-156 | arguments other than the five read keys and the pinned keys never change the outcome |
| Scopes.ClosedUnderPrefix | reference/python_gateway/src/csp_gateway/pccap.py:117-137 | every clean absolute path that extends the prefix by whole components is accepted |
| Scopes.DivergentPathOutside | reference/python_gateway/src/csp_gateway/pccap.py:131-135 | a clean absolute path whose components do not extend the prefix is rejected as outside it, including a sibling such as `/tmp/scratchy` |
| Scopes.PathOnlyScope | reference/python_gateway/src/csp_gateway/pccap.py:107-156 | for a scope that only restricts the path, a request with a non-empty `path` gets the path check's verdict |
| Scopes.AsciiContentSize | reference/python_gateway/src/csp_gateway/pccap.py:143-146 | for ASCII string content, the size `max_bytes` limits is the character count |
| Scopes.DecodePinsRoundTrip | reference/python_gateway/src/csp_gateway/pccap.py:93-102 | pinned scalars survive their dict form |
| Scopes.ScopeRoundTrip | reference/python_gateway/src/csp_gateway/pccap.py:90-105 | `from_dict(to_dict(s))` is `s` |
| Scopes.ScopeDefaults | reference/python_gateway/src/csp_gateway/pccap.py:98-105 | a dict with only `tool_name` gives no pins, no prefix and no size limit |
| Scopes.ScopeNeedsToolName | reference/python_gateway/src/csp_gateway/pccap.py:101 | a dict without `tool_name` is rejected with that key missing |
| Scopes.ScopeFromDictByLookup | reference/python_gateway/src/csp_gateway/pccap.py:98-105 | `from_dict` reads the dict only through its four keys |
| Scopes.CanonScopeDict | reference/python_gateway/src/csp_gateway/pccap.py:90-96 | the canonical form of a scope's dict is the dict of the scope with its pins sorted |
| Scopes.DecodeCanonScope | reference/python_gateway/src/csp_gateway/pccap.py:90-105 | decoding the canonical scope dict gives the scope with its pins sorted |
| Tokens.FromDictByLookup | reference/python_gateway/src/csp_gateway/pccap.py:197-211 | `from_dict` reads the dict only through its eleven keys |
| Tokens.AlgorithmRoundTrip | reference/python_gateway/src/csp_gateway/pccap.py:197-211 | an algorithm's name reads back as the algorithm |
| Tokens.DecodeFieldMembers | reference/python_gateway/src/csp_gateway/pccap.py:180-211 | the ten written fields and an optional signature decode to the token with that signature |
| Tokens.TokenRoundTrip | reference/python_gateway/src/csp_gateway/pccap.py:180-211 | `from_dict(to_dict())` is the token, except that an empty signature comes back as none |
| Tokens.UnsignedRoundTrip | reference/python_gateway/src/csp_gateway/pccap.py:180-211 | `from_dict(to_dict(include_signature=False))` is the token without its signature |
| Tokens.FromDictDefaults | reference/python_gateway/src/csp_gateway/pccap.py:197-211 | a dict with only the six required keys gives a single-use HS256 token with no policy, nonce or signature |
| Tokens.CanonicalBytesAreText | reference/python_gateway/src/csp_gateway/pccap.py:219-222 | the canonical bytes are the codes of the canonical text's characters |
| Tokens.SignedTextDecodes | reference/python_gateway/src/csp_gateway/pccap.py:219-222 | the canonical text reads back, and decodes, to exactly the token's signed fields |
| Tokens.ScopeTextOfSortedPins | reference/python_gateway/src/csp_gateway/pccap.py:219-222 | the insertion order of pinned arguments does not reach the canonical text |
| Tokens.CanonicalTextOfSignedFields | reference/python_gateway/src/csp_gateway/pccap.py:167-222 | the canonical text depends only on the signed fields |
| Tokens.CanonicalBytesInjective | reference/python_gateway/src/csp_gateway/pccap.py:167-222 | two tokens have the same canonical bytes exactly when they agree on every field but the signature, with pinned arguments compared as dicts |
| Base64.SextetRoundTrip | reference/python_gateway/src/csp_gateway/pccap.py:244 | each base64 alphabet character reads back as its six-bit value |
| Base64.DecodeEncode | reference/python_gateway/src/csp_gateway/pccap.py:244 | decoding undoes `b64encode` |
| Base64.EncodeInjective | reference/python_gateway/src/csp_gateway/pccap.py:244-322 | different byte strings have different base64 texts |
| Base64.WholeGroupsUnpadded | reference/python_gateway/src/csp_gateway/pccap.py:322-372 | input made of whole three-byte groups encodes without `=` padding |
| Base64.StripPadding | reference/python_gateway/src/csp_gateway/pccap.py:322-372 | `rstrip("=")` gives a prefix of the text that does not end in `=`, and everything it removes is `=` |
| Keyrings.NewKeyring | reference/python_gateway/src/csp_gateway/pccap.py:232-238 | a missing or empty key is replaced by the fresh random key, so the secret is never empty |
| Keyrings.Sign | reference/python_gateway/src/csp_gateway/pccap.py:240-244 | a signature is the 44-character base64 text of the digest of the canonical bytes |
| Keyrings.SignReadsSignedFields | reference/python_gateway/src/csp_gateway/pccap.py:167-244 | tokens that agree on their signed fields get the same signature |
| Keyrings.SignedVerifies | reference/python_gateway/src/csp_gateway/pccap.py:240-253 | a token given its own signature verifies |
| Keyrings.VerifyReadsSignedFields | reference/python_gateway/src/csp_gateway/pccap.py:246-253 | restoring a tampered field restores verification: the outcome depends only on the signed fields and the signature |
| Keyrings.TamperingNeedsCollision | reference/python_gateway/src/csp_gateway/pccap.py:246-253 | a changed signed field under the old signature verifies only if the MAC maps two different messages to one digest |
| Keyrings.MisshapenSignatureFails | reference/python_gateway/src/csp_gateway/pccap.py:246-253 | a signature that is not 44 characters long, such as `"invalid"`, never verifies |
| Keyrings.OtherKeyNeedsCollision | reference/python_gateway/src/csp_gateway/pccap.py:240-253 | a token signed under one keyring verifies under another only if both MACs give the same digest for its bytes |
| Stores.PutThenGet | reference/python_gateway/src/csp_gateway/pccap.py:266-272 | after `store(t)`, `get` finds `t` under its id; other ids, the consumed marks and an existing id's position are unchanged |
| Stores.RemoveCharacterized | reference/python_gateway/src/csp_gateway/pccap.py:274-280 | `revoke` answers true exactly when the id was stored. A successful revoke removes the token and its consumed mark, and keeps the other ids, their marks and their order. A failed revoke changes nothing, not even a consumed mark left on an unstored id |
| Stores.ConsumeOnce | reference/python_gateway/src/csp_gateway/pccap.py:282-291 | the first `mark_used` of an id succeeds, every later one fails, and it changes only the consumed marks |
| Stores.CleanupCharacterized | reference/python_gateway/src/csp_gateway/pccap.py:293-305 | cleanup keeps exactly the tokens not expired at `now`, unchanged and in their insertion order, drops the removed ids' consumed marks, and returns the number of tokens removed |
| Stores.CleanupIdempotent | reference/python_gateway/src/csp_gateway/pccap.py:293-305 | a second cleanup at the same instant removes nothing |
| Stores.ActiveCharacterized | reference/python_gateway/src/csp_gateway/pccap.py:307-317 | the listing holds exactly the stored tokens of the principal that are neither expired nor consumed |
| Stores.ListSoleToken | reference/python_gateway/src/csp_gateway/pccap.py:307-317 | a store holding one token lists it for its principal exactly while it is unexpired, and lists nothing for anyone else |
| Stores.PCCapStore.constructor | reference/python_gateway/src/csp_gateway/pccap.py:262-264 | a new store is empty |
| Stores.PCCapStore.Store | reference/python_gateway/src/csp_gateway/pccap.py:266-268 | the state becomes `Put` of the old state |
| Stores.PCCapStore.Get | reference/python_gateway/src/csp_gateway/pccap.py:270-272 | the token stored under the id, if any |
| Stores.PCCapStore.Revoke | reference/python_gateway/src/csp_gateway/pccap.py:274-280 | the state and answer are `Remove` of the old state |
| Stores.PCCapStore.MarkUsed | reference/python_gateway/src/csp_gateway/pccap.py:282-287 | the state and answer are `Consume` of the old state |
| Stores.PCCapStore.ExpiredInOrder | reference/python_gateway/src/csp_gateway/pccap.py:298-301 | the loop collects the expired ids in insertion order |
| Stores.PCCapStore.DeleteAll | reference/python_gateway/src/csp_gateway/pccap.py:302-304 | the loop deletes every listed id and its consumed mark, keeping the others in order |
| Stores.PCCapStore.CleanupExpired | reference/python_gateway/src/csp_gateway/pccap.py:293-305 | the state and count are `Cleanup` of the old state |
| Stores.PCCapStore.ListForPrincipal | reference/python_gateway/src/csp_gateway/pccap.py:307-317 | the loop returns `Active` of the state |
| Capabilities.UnpaddedText | reference/python_gateway/src/csp_gateway/pccap.py:372 | the nonce of whole three-byte groups is their base64 text, four characters per group |
| Capabilities.TokenIdShape | reference/python_gateway/src/csp_gateway/pccap.py:320-322 | a token id starts with `pccap_`, has 22 characters, and differs whenever the random bytes differ |
| Capabilities.MintedToken | reference/python_gateway/src/csp_gateway/pccap.py:325-377 | a minted token carries the requested fields, verifies under its keyring, survives `to_dict`/`from_dict`, and is expired from exactly `ttl_seconds` after issue |
| Capabilities.EnforceAllowsIff | reference/python_gateway/src/csp_gateway/pccap.py:429-494 | a token is honoured exactly when it is unexpired, its signature is the keyring's, its principal is the requester and its scope matches, and then with `ALLOW_PCCAP_VALID` |
| Capabilities.EnforceDenialOrder | reference/python_gateway/src/csp_gateway/pccap.py:455-488 | each denial code names the first failing check, in the order expiry, signature, principal, scope |
| Capabilities.ExpiryIsFinal | reference/python_gateway/src/csp_gateway/pccap.py:455-464 | once expired, a token is denied for expiry at every later time, whatever else holds |
| Capabilities.FsDeleteScope | reference/python_gateway/src/csp_gateway/pccap.py:380-416 | an `fs.delete` token minted for a clean absolute prefix keeps that prefix, verifies, and expires after its lifetime |
| Capabilities.FsDeleteUnderPrefix | reference/python_gateway/src/csp_gateway/pccap.py:497-520 | within its lifetime, it lets its principal delete any clean path extending the prefix |
| Capabilities.FsDeleteOutsidePrefix | reference/python_gateway/src/csp_gateway/pccap.py:497-520 | a path that does not extend the prefix is denied as a scope mismatch |
| Capabilities.FsDeleteRefusals | reference/python_gateway/src/csp_gateway/pccap.py:497-520 | it is refused once expired (a zero lifetime expires at once), to another principal, and with a corrupted signature |
| Engine.FirstHonoured | reference/python_gateway/src/csp_gateway/pccap.py:583-603 | the position of the first token that all four checks accept, with none before it accepted |
| Engine.EnforceHonoured | reference/python_gateway/src/csp_gateway/pccap.py:429-494 | `enforce_pccap` allows exactly the honoured tokens |
| Engine.AutoScanFindsFirst | reference/python_gateway/src/csp_gateway/pccap.py:583-608 | over unconsumed tokens, the search grants the first honoured token, or answers `DENY_NO_PCCAP` |
| Engine.AutoMode | reference/python_gateway/src/csp_gateway/pccap.py:578-608 | without a token id, the engine grants the first of the principal's active tokens, in insertion order, that all checks accept, consuming it if single-use; its replay branches never fire |
| Engine.NamedMode | reference/python_gateway/src/csp_gateway/pccap.py:610-634 | with a token id: not found, replay of a consumed single-use token, or the enforcement outcome, consuming a granted single-use token |
| Engine.EvaluateConsumesAtMostOne | reference/python_gateway/src/csp_gateway/pccap.py:560-634 | a request never changes which tokens are stored; a denial changes nothing; a grant names a stored token, and consumes that token if it is single-use and nothing otherwise |
| Engine.SingleUseReplayDenied | reference/python_gateway/src/csp_gateway/pccap.py:617-634 | after a single-use token allows one request, every later request naming it is `DENY_PCCAP_REPLAY` |
| Engine.MultiUseRepeatable | reference/python_gateway/src/csp_gateway/pccap.py:626-634 | a multi-use token never changes the store, so a repeated request gets the same answer |
| Engine.MintedHonoured | reference/python_gateway/src/csp_gateway/pccap.py:429-494 | within its lifetime, a minted token passes all four checks of \`enforce_pccap\` for a request its scope fits |
| Engine.MintThenNamed | reference/python_gateway/src/csp_gateway/pccap.py:610-634 | a minted and stored token, named within its lifetime, allows a request its scope fits |
| Engine.MintThenAuto | reference/python_gateway/src/csp_gateway/pccap.py:538-608 | without an id, the engine finds a minted token that is alone in the store |
| Engine.EmptyStoreHasNoToken | reference/python_gateway/src/csp_gateway/pccap.py:578-608 | an empty store answers a request without a token id with `DENY_NO_PCCAP` |
| Engine.PCCapPolicyEngine.constructor | reference/python_gateway/src/csp_gateway/pccap.py:530-536 | the engine uses the given store, or a fresh empty one |
| Engine.PCCapPolicyEngine.Mint | reference/python_gateway/src/csp_gateway/pccap.py:538-558 | the token is `mint_pccap`'s, and the store state becomes `Put` of it |
| Engine.PCCapPolicyEngine.EvaluateWithPCCap | reference/python_gateway/src/csp_gateway/pccap.py:560-634 | the decision and the new store state are `Evaluate` of the old state |
| Engine.PCCapPolicyEngine.AutoEvaluate | reference/python_gateway/src/csp_gateway/pccap.py:578-608 | the loop over the listed tokens returns `AutoScan` of the listing |
| Engine.PCCapPolicyEngine.Revoke | reference/python_gateway/src/csp_gateway/pccap.py:636-638 | the store state and answer are `Remove` of the old state |
| Engine.PCCapPolicyEngine.Cleanup | reference/python_gateway/src/csp_gateway/pccap.py:640-642 | the store state and count are `Cleanup` of the old state |

## Left out

- Timestamps are whole seconds (`int`), not floats. `datetime.isoformat` in the expiry message is not modelled.
- Reason messages are kept as the data they are formatted from (`Capabilities.Reason`), not as formatted strings.
- Each engine call, enforcement and listing reads the clock once, as `now`. The source may read it again between `list_for_principal` and `enforce_pccap`, so a token can expire between the two reads. With one `now` that cannot happen.
- `os.urandom` and `time.time()` are parameters. `generate_token_id` is modelled as `Capabilities.GenerateTokenId` over its 12 random bytes, but `mint_pccap` takes the id and nonce as arguments, so that the proofs do not depend on randomness.
- HMAC-SHA256 is an uninterpreted function of the keyring. Its cryptographic strength is assumed nowhere, so the forgery results are stated as "only through a collision".
- `Ed25519` exists only as an algorithm name: the source never signs with it, and `verify` always uses HMAC.
- Keyrings.Verify: `hmac.compare_digest` raises `TypeError` for a signature with non-ASCII characters. The model answers false there, because such a signature can never equal a base64 tag.
- The timing behaviour of `compare_digest` is not modelled.
- Concurrency: the model is sequential. The engine's replay branches that only a concurrent `mark_used` could reach are modelled, and proved unreachable in sequential use.
- Argument values are strings, integers, booleans and bytes. `None`, floats and containers inside `arguments` are not modelled.
- Scopes.SizeFailure and Text.Utf8Encode: `str(content).encode()` raises `UnicodeEncodeError` when `content` holds a lone surrogate, which a Python `str` can carry (for example after `json.loads('"\\ud800"')`). A Dafny `char` is always a Unicode scalar value, so this exception path of `matches_request` is not represented, and the size check always produces a verdict.
- Pinned values in `allowed_args` are modelled as strings, integers and booleans only; this is a modelling choice. `json.dumps` in `canonical_bytes` would also sign `None`, float, list and dict pins, and only `bytes` and other non-JSON objects make it raise.
- Pins to `None`, floats and containers are not modelled. In the source, a pin to `None` matches a request whose key is absent or `None`, because `arguments.get(key)` gives `None` for a missing key. A float pin `1.0` matches an integer argument `1`.
- Tokens.FromDict and Scopes.ScopeFromDict reject a present value of the wrong JSON type with `WrongType`. Python's `from_dict` would build the object anyway and fail, or not, later. Examples are a float timestamp, `allowed_args: null`, or a non-string `tool_name`.
- JSON texts with duplicate keys are not considered: every dict here is built by `to_dict` with distinct keys.
- The exception classes `PCCapError`, `TokenExpiredError`, `TokenScopeError`, `TokenSignatureError` and `TokenNotFoundError` are declared but never raised by the core, so they are not modelled.
- `Principal` comes from the base gateway. Only its `sub` is used here, so the model has only that field.
- The literal path scenarios of the source's tests (`/tmp/scratch/file.txt`, `/etc/passwd`, `/tmp/scratchy`) are covered by lemmas over arbitrary clean absolute paths (`Capabilities.FsDeleteUnderPrefix`, `Capabilities.FsDeleteOutsidePrefix`, `Scopes.DivergentPathOutside`), not by concrete instances.
- Python's pinned-argument comparison `actual != expected` treats `True == 1` and `False == 0`. `Scopes.PyEquals` keeps that behaviour.
