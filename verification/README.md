# Ore scanner and selection dashboard, modelled in Dafny

This project models the core of a Biomes game scaffold. It has two parts.

The first is the ore scanner, `packages/hardhat/scripts/readMapTiles.ts`, and the
`/askFind` endpoint that serves it, `packages/hardhat/scripts/server.ts`. For
each requested object type, the scanner asks a read-only map contract about
eleven horizontal 11 x 11 boxes stacked around the player. It drops the
contract's empty (all-zero) slots and reports the hits per object type. The
endpoint parses the `objectType` query parameter with `slice`, `split` and
`parseInt`. It then converts every bigint of the result to a number.

The second is the selection logic of the Next.js dashboard:

- the checkbox diff sent to the game contract (`findDiff` in
  `FunctionalButtons.tsx` and `SendEthButton.tsx`);
- the `handleChange` toggle;
- the loading of the player's current selection (`readPlayerSearching`);
- the "IN SEARCH" / "OPTIONS" split of `ObjectIdSelected.tsx`;
- the ABI filters of `RegisterGame.tsx`;
- the delegation decision of `RegisterBiomes.tsx`.

Modules, one per file:

| module | file | what it holds |
|---|---|---|
| `Wrappers` | wrappers.dfy | `Option` |
| `Seqs` | seqs.dfy | order-preserving `Filter` and `Flatten`, with their algebra |
| `Voxel` | voxel.dfy | coordinates, boxes, `increaseY`, the eleven layers |
| `Scanner` | scanner.dfy | the oracle as a parameter, `getVoxelFromResult`, `findOre`, `findOres` and the trace of oracle reads |
| `JsValues` | jsvalues.dfy | JavaScript values and `convertBigIntToNumber` |
| `QueryParam` | queryparam.dfy | `slice(1, -1)`, `split(",")`, `parseInt` |
| `Endpoint` | endpoint.dfy | the `/askFind` handler |
| `Checkbox` | checkbox.dfy | `findDiff`, the toggle, the two groups and their rendering |
| `ContractWrite` | contractwrite.dfy | the two submit buttons |
| `Registration` | registration.dfy | `readPlayerSearching`, the ABI filters and finds, the delegation check |

The map contract is a parameter. A `Scanner.Reader` value holds its two reads,
`getPlayerLocation` and `foundTargetInArea`, as functions. `FindOres` returns
the records and also the list of reads it issued, in issue order.

Points where the code's behaviour is easy to misread:

- `server.ts` imports a `scan` that `readMapTiles.ts` does not define. The
  endpoint is modelled against `findOres`, which takes the same player and id
  list.
- The handler rejects nothing. An unparsable piece becomes NaN, and the scan
  runs with it. `"[]"` parses to one NaN id, not to an empty list
  (`QueryParam.EmptyListIsOneNaN`).
- The lowest layer is five blocks below the player, and layer `i` is `i`
  blocks above it, as `findOre` builds it.

## Model

| member | source | states |
|---|---|---|
| Voxel.IncreaseY | packages/hardhat/scripts/readMapTiles.ts:10-18 | The shifted box keeps its size and its x and z corner. A block is in it exactly when the block `i` below is in the original box. |
| Voxel.IncreaseYComposes | packages/hardhat/scripts/readMapTiles.ts:10-18 | Shifting by `i` then `j` is shifting by `i + j`. Shifting by 0 is the identity. |
| Voxel.BaseArea | packages/hardhat/scripts/readMapTiles.ts:55-62 | The base box is 11 x 1 x 11. It holds exactly the blocks of the player's cube that sit five blocks below the player. |
| Voxel.LayerContains | packages/hardhat/scripts/readMapTiles.ts:55-64 | Layer `i` holds exactly the cube's blocks at height `y - 5 + i`. |
| Voxel.LayersTileCube | packages/hardhat/scripts/readMapTiles.ts:55-66 | A block is in the 11 x 11 x 11 cube around the player exactly when it is in some layer. No block is in two layers. |
| Scanner.GetVoxelFromResult | packages/hardhat/scripts/readMapTiles.ts:36-40 | Naming the three positional values is the inverse of `Object.values`. The result is the origin exactly for an all-zero slot. |
| Scanner.KeepFound | packages/hardhat/scripts/readMapTiles.ts:73-77 | The filtered list never holds the origin. A coordinate is in it exactly when its values are among the slots and it is not the origin. |
| Scanner.LayerHits | packages/hardhat/scripts/readMapTiles.ts:72-79 | A layer contributes at most one coordinate per slot. A coordinate is among its hits exactly when the count is positive, the coordinate is not the origin, and its values are among the slots. |
| Scanner.VoxelsAppend | packages/hardhat/scripts/readMapTiles.ts:73-77 | Mapping slots to coordinates keeps order: the coordinates of two concatenated slot lists are the two coordinate lists, concatenated. |
| Scanner.KeepFoundAppend | packages/hardhat/scripts/readMapTiles.ts:73-77 | Filtering keeps slot order: the survivors of two concatenated slot lists are the two lists of survivors, concatenated. |
| Scanner.ScenarioSlots | packages/hardhat/scripts/readMapTiles.ts:73-77 | Of the slots (8,5,8), (0,0,0), (12,5,12), the filter keeps the first and the last. |
| Scanner.FindOre | packages/hardhat/scripts/readMapTiles.ts:54-83 | The scan never reports the origin. |
| Scanner.FindOreReports | packages/hardhat/scripts/readMapTiles.ts:69-81 | A coordinate is reported exactly when it is not the origin and some layer answered a positive count with that coordinate among its slots. A layer with a count that is not positive contributes nothing. |
| Scanner.FindOreLayerOrder | packages/hardhat/scripts/readMapTiles.ts:69-81 | Layer `j`'s hits form one contiguous block. The hits of all lower layers come before it and those of all higher layers after it. |
| Scanner.FindOreSingleLayer | packages/hardhat/scripts/readMapTiles.ts:69-81 | When every other layer contributes nothing, the scan result is the one layer's hits. |
| Scanner.ScenarioTwoHits | packages/hardhat/scripts/readMapTiles.ts:54-83 | Setup: a player at (10,5,10), and an oracle answering count 2 with an empty middle slot on the player's layer only. Result: exactly [(8,5,8), (12,5,12)]. |
| Scanner.Reconvert | packages/hardhat/scripts/readMapTiles.ts:46-48 | Converting `findOre`'s coordinates a second time gives the same list back. |
| Scanner.ScanOne | packages/hardhat/scripts/readMapTiles.ts:46-49 | A record carries the requested id and that id's scan result. Its `length` is the number of hits. |
| Scanner.Findings | packages/hardhat/scripts/readMapTiles.ts:44-51 | There is one record per requested id, and record `i` is the record of id `i`. |
| Scanner.FindingsStep | packages/hardhat/scripts/readMapTiles.ts:44-51 | Handling one more id appends exactly that id's record to the records so far. |
| Scanner.IssuedCallsLength | packages/hardhat/scripts/readMapTiles.ts:42-66 | A scan of `n` ids issues `1 + 11 n` reads, and the location read comes first. |
| Scanner.IssuedCallsBlock | packages/hardhat/scripts/readMapTiles.ts:42-66 | Reads `1 + 11 j` up to `1 + 11 (j + 1)` are the eleven layer reads of id `j`, in layer order. |
| Scanner.FindOres | packages/hardhat/scripts/readMapTiles.ts:42-52 | Records match requests in order, duplicates included. Each holds its id, the hits `findOre` reports around the player's location, and their number. Reads issued: one location read, then eleven layer reads per id. |
| JsValues.NumberOfInt | packages/hardhat/scripts/server.ts:21 | `Number` of a bigint is never NaN. It is exact within the safe-integer range. |
| JsValues.Convert | packages/hardhat/scripts/server.ts:19-34 | The result holds no bigint. A safe bigint becomes the equal number. Arrays keep their length and objects their keys. Every other value is returned unchanged. |
| JsValues.ConvertKeepsShape | packages/hardhat/scripts/server.ts:19-34 | Conversion keeps the tree's shape at every depth. Each bigint, however deeply nested, becomes `Number` of the same value. Arrays keep their length and element order, objects their keys in order. Every other leaf is unchanged. |
| JsValues.ConvertFixesBigIntFree | packages/hardhat/scripts/server.ts:19-34 | A tree without bigints is returned exactly as it is. |
| JsValues.ConvertIdempotent | packages/hardhat/scripts/server.ts:19-34 | Converting twice is converting once. |
| QueryParam.SliceInner | packages/hardhat/scripts/server.ts:10 | `slice(1, -1)` drops exactly the first and the last character. It is two shorter for strings of length two or more. A shorter string gives the empty string. |
| QueryParam.Split | packages/hardhat/scripts/server.ts:11 | `split(",")` gives one more piece than there are commas. No piece contains a comma. |
| QueryParam.JoinSplit | packages/hardhat/scripts/server.ts:11 | Joining the pieces with commas restores the string. |
| QueryParam.SplitJoin | packages/hardhat/scripts/server.ts:11 | Comma-free pieces joined with commas split back into the same pieces. |
| QueryParam.SplitNoSeparator | packages/hardhat/scripts/server.ts:11 | A string without a comma is a single piece. |
| QueryParam.TrimStart | packages/hardhat/scripts/server.ts:12 | `parseInt`'s white-space skip removes only JavaScript white space, and leaves a suffix that does not start with white space. |
| QueryParam.ParseInt | packages/hardhat/scripts/server.ts:12 | `parseInt` gives NaN or an integer. It gives NaN when no decimal digit follows the leading white space and sign. |
| QueryParam.ParseSigned | packages/hardhat/scripts/server.ts:12 | After the white space: NaN or an integer, and NaN when no decimal digit follows the sign. |
| QueryParam.ParseMagnitude | packages/hardhat/scripts/server.ts:12 | The unsigned part fails exactly when no digit follows: after a `0x` or `0X` prefix, no hex digit; otherwise, no decimal digit first. |
| QueryParam.DigitPrefix | packages/hardhat/scripts/server.ts:12 | The digit run is a prefix made only of digits. The character after it, if any, is not a digit. |
| QueryParam.DigitPrefixStops | packages/hardhat/scripts/server.ts:12 | The digit run of digits followed by a non-digit is exactly those digits. |
| QueryParam.MagnitudeOfDigits | packages/hardhat/scripts/server.ts:12 | Take decimal digits that do not start a `0x` prefix, followed by a non-digit. Their unsigned value is the value of the digits. |
| QueryParam.DecimalDigitsParse | packages/hardhat/scripts/server.ts:12 | A non-empty run of decimal digits parses to the integer it denotes. |
| QueryParam.ParseIntSkipsWhiteSpace | packages/hardhat/scripts/server.ts:12 | A leading white-space character does not change the result. |
| QueryParam.ParseIntStopsAtNonDigit | packages/hardhat/scripts/server.ts:12 | A number followed by any character that is not a decimal digit parses to that number. The only exception is an `x` or `X` after a lone `0`, which makes a hex prefix. |
| QueryParam.ParseIntNegative | packages/hardhat/scripts/server.ts:12 | A leading minus sign negates the number. |
| QueryParam.ParseIntShowNat | packages/hardhat/scripts/server.ts:12 | `parseInt` reads back the decimal rendering of every natural number. |
| QueryParam.ParseObjectType | packages/hardhat/scripts/server.ts:9-12 | There is one id per comma-separated piece between the outer characters. Id `i` is `parseInt` of piece `i`. |
| QueryParam.EmptyListIsOneNaN | packages/hardhat/scripts/server.ts:9-12 | `"[]"` parses to a single NaN, not to an empty list. |
| QueryParam.FormatParse | packages/hardhat/scripts/server.ts:9-12 | A non-empty list of ids written as `[a,b,...]` parses back to the same ids. |
| Endpoint.CoordWire | packages/hardhat/scripts/server.ts:21-31 | A converted coordinate is an object with keys x, y, z. Its values equal the coordinate's components when those are safe integers. |
| Endpoint.ConvertFinding | packages/hardhat/scripts/server.ts:16-34 | Converting a record changes only its coordinates. The id and the count are untouched. |
| Endpoint.RespondWire | packages/hardhat/scripts/server.ts:16-34 | The response lists each record in converted form, in order. |
| Endpoint.AskFind | packages/hardhat/scripts/server.ts:7-17 | The body is an array with one record per parsed id (commas plus one), in order, NaN ids included. Each record is that id's scan around the player, in converted form. No bigint remains. |
| Checkbox.FindDiff | packages/nextjs/components/FunctionalButtons.tsx:20-26 | An id is in the diff exactly when some position holds it in `a` with a `checked` flag that differs from `b`'s at that position. The diff is no longer than `a`. |
| Checkbox.FindDiffAppend | packages/nextjs/components/FunctionalButtons.tsx:20-26 | The diff keeps `a`'s order: the diff of two lists split at the same point is the two diffs concatenated. |
| Checkbox.FindDiffSelf | packages/nextjs/components/FunctionalButtons.tsx:20-26 | A list compared with itself has no differences. |
| Checkbox.FindDiffSymmetric | packages/nextjs/components/FunctionalButtons.tsx:20-26 | When the ids agree position by position, swapping the arguments does not change the diff. |
| Checkbox.Toggle | packages/nextjs/components/RegisterGame.tsx:66-71 | Exactly the items carrying the id have `checked` flipped. Ids, icons, labels and order are unchanged. |
| Checkbox.ToggleTwice | packages/nextjs/components/RegisterGame.tsx:66-71 | Toggling the same id twice restores the list. |
| Checkbox.ToggleAbsent | packages/nextjs/components/RegisterGame.tsx:66-71 | Toggling an id that no item carries changes nothing. |
| Checkbox.ToggleThenDiff | packages/nextjs/components/RegisterGame.tsx:66-71 | With distinct ids, toggling a listed id makes the diff against the original list exactly that id. |
| Checkbox.Searching | packages/nextjs/components/ObjectIdSelected.tsx:24-25 | "IN SEARCH" holds exactly the checked items. |
| Checkbox.Options | packages/nextjs/components/ObjectIdSelected.tsx:39-40 | "OPTIONS" holds exactly the unchecked items. |
| Checkbox.PartitionItems | packages/nextjs/components/ObjectIdSelected.tsx:24-40 | The two groups share no item. Their sizes add up to the list's, and as multisets they make up the list. |
| Checkbox.PartitionOrder | packages/nextjs/components/ObjectIdSelected.tsx:24-40 | Each group keeps the list's relative order. |
| Checkbox.Render | packages/nextjs/components/ObjectIdSelected.tsx:26-47 | Both groups render the same way. There is one tile per item, in order. Each tile reports its item's id and shows its item's checked state. |
| Checkbox.ClickSearchingTile | packages/nextjs/components/ObjectIdSelected.tsx:24-32 | With distinct ids, clicking a tile in "IN SEARCH" reports a listed id. After the toggle, no item with that id is in "IN SEARCH". |
| ContractWrite.SubmitSelectCall | packages/nextjs/components/FunctionalButtons.tsx:34-43 | `SubmitSelect` calls `setPlayerObjectTypes` at the hook address. Its single argument is the diff of the selection against the snapshot, which is no longer than the selection. |
| ContractWrite.SendEthFindDiff | packages/nextjs/app/debug/_components/contract/SendEthButton.tsx:25-33 | `SendEthButton`'s diff is the same list as `FunctionalButtons`'s. |
| ContractWrite.SendEthWrite | packages/nextjs/app/debug/_components/contract/SendEthButton.tsx:48-59 | The write goes to the given address and function with the diff as its only argument. With `setPlayerObjectTypes` it is `SubmitSelect`'s write. |
| ContractWrite.SubmitAfterToggle | packages/nextjs/components/FunctionalButtons.tsx:34-43 | With distinct ids, one toggle since the snapshot submits exactly that id. No change submits an empty list. |
| Registration.ReadPlayerSearching | packages/nextjs/components/RegisterGame.tsx:73-96 | When not ready, nothing changes. Otherwise item `i` is checked exactly when the contract's answer for supported id `i` is not `false`. Items past the supported ids, and ids, icons and labels, are unchanged. Selection and snapshot become equal, so the diff is empty. |
| Registration.ReadMatchesOwnIds | packages/nextjs/components/RegisterGame.tsx:73-96 | When the items list the supported ids in order, each flag is the contract's answer for that item's own id. |
| Registration.AbiFunctions | packages/nextjs/components/RegisterGame.tsx:130 | A function is kept exactly when it is a function entry of the ABI. |
| Registration.WriteFunctions | packages/nextjs/components/RegisterGame.tsx:130-141 | A function is offered for writing exactly when it is in the ABI, neither view nor pure, and not one of the five hook callbacks. |
| Registration.ViewFunctions | packages/nextjs/components/RegisterGame.tsx:152-157 | A function is offered for reading exactly when it is in the ABI, view or pure, and takes no argument. |
| Registration.WriteAndViewDisjoint | packages/nextjs/components/RegisterGame.tsx:130-157 | No function is offered in both lists. |
| Registration.FindByName | packages/nextjs/components/RegisterGame.tsx:150 | `find` succeeds exactly when some function has the name. It returns the first such function. |
| Registration.RegisterPlayFunction | packages/nextjs/components/RegisterGame.tsx:150 | Found exactly when the ABI has a writeable `setPlayerObjectTypes`. |
| Registration.BasicGetter | packages/nextjs/components/RegisterGame.tsx:166 | Found exactly when the ABI has a view or pure `basicGetter` that takes no argument. |
| Registration.AbiHasName | packages/nextjs/components/RegisterBiomes.tsx:133 | The ABI has the name exactly when some entry carries it. |
| Registration.ToLower | packages/nextjs/components/RegisterBiomes.tsx:122 | Lower-casing keeps the length and leaves no upper-case letter. Each of `A`-`Z` becomes the matching `a`-`z`, and every other character is unchanged. |
| Registration.ToLowerIdempotent | packages/nextjs/components/RegisterBiomes.tsx:122 | Lower-casing twice is lower-casing once. |
| Registration.SameAddressIgnoresCase | packages/nextjs/components/RegisterBiomes.tsx:122 | The address comparison ignores case on either side and is symmetric. |
| Registration.CheckDelegatorAddress | packages/nextjs/components/RegisterBiomes.tsx:103-129 | Without a wallet or a loaded contract, the player is not the delegator and delegation is done. Without a client, nothing changes. Otherwise the player is the delegator exactly when the contract's delegator is a string equal to the player's address up to case, and delegation is done exactly when the player is not the delegator. |
| Registration.DelegationEffect | packages/nextjs/components/RegisterBiomes.tsx:131-139 | Without contract data, nothing changes. Without `delegatorAddress` in the ABI, delegation is done and the delegator flag is kept. With it, the delegator check runs, ready exactly when the contract read is not loading. |
| Registration.IsBiomesRegistered | packages/nextjs/components/RegisterBiomes.tsx:143-149 | The player counts as registered exactly when both the hooks and the delegation are registered. |
| Registration.RegistrationDecision | packages/nextjs/components/RegisterBiomes.tsx:131-149 | Without `delegatorAddress`, registration follows the hooks alone. When the connected player is the delegator, the player is not registered. |

## Left out

- Network and chain access: the map contract, the wallet and the public client are parameters. Their calls are functions given to the model, and a failed or reverted call is not modelled.
- `Promise.all` and `await` ordering: the eleven layer reads are modelled as issued in layer order. Their results are combined in that order, as `Promise.all` does.
- `console.log` calls, including those in `SendEthButton`'s `findDiff`: they have no effect on results.
- The Express plumbing of `server.ts`: routing, the port, `res.send`, the text `JSON.stringify` produces, and the crash when `objectType` is missing. `JSON.stringify` would print a NaN id as `null`; the model stops at the value tree.
- JsValues.NumberOfInt: a bigint outside the safe-integer range becomes a symbolic `Rounded(n)`. The nearest double is not computed, because floating point is out of scope.
- QueryParam.ParseInt: `-0` is the same number as `0`, because the model has no negative zero. An explicit radix argument is not modelled, because the endpoint passes none; the `0x` prefix of the default radix is.
- Endpoint.AskFind: the ids parsed as NaN are passed to the scanner unchanged. What the contract answers for them is up to the oracle parameter.
- Registration.ToLower: only ASCII letters are lower-cased. Addresses are hexadecimal strings.
- The `.sort` of `writeFunctions` and `viewFunctions` by `inheritedFrom`: `FindByName` runs over the unsorted lists. The returned function is the first match in ABI order. With overloads of the same name the sorted page may pick a different one. Which function names exist is the same either way.
- `inheritedFrom` and the other display fields of the ABI entries.
- React state, effects and rendering beyond what the contracts state. Setter calls are modelled as returning the new state. `readPlayerSearching` mutating the current item objects in place (through `temp = checkedItems`) is modelled as building a new list, because the model has no aliasing.
- Registration.ReadPlayerSearching: the page's readiness guard (wallet, contract loaded, client present) is one boolean `ready`.
- Checkbox.FindDiff and Registration.ReadPlayerSearching require the second list to be at least as long as the first. In the source a shorter list makes `b[index].checked` (or `temp[i].checked`) throw a `TypeError`, and that crash is not modelled.
- `DisplayVariable.tsx`, `main` in `readMapTiles.ts` with its fixed addresses, and the page layouts: no logic beyond display.
- Properties inherited through the prototype chain in `convertBigIntToNumber`'s `for ... in` loop: the `hasOwnProperty` test skips them, and the model's objects hold only own properties.
- Strings are sequences of code points, not of UTF-16 code units. `slice(1, -1)` on a string that starts or ends with a character outside the Basic Multilingual Plane drops the whole character here, but only half of its surrogate pair in JavaScript. For `"😀1,2😀"` JavaScript parses `[NaN, 2]` and the model `[1, 2]`.
- JsValues.Convert: a `__proto__` key makes `newObj[key] = ...` set the new object's prototype instead of an own property, so JavaScript drops that key from the output. The model keeps every key, including `__proto__`.
