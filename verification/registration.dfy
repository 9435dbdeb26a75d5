/**
 * The registration pages of the dashboard, packages/nextjs/components/RegisterGame.tsx
 * and RegisterBiomes.tsx: loading the player's current selection, picking
 * functions out of the game contract's ABI, and deciding whether the player
 * still has to delegate to the game.
 */
module Registration {
  import opened Wrappers
  import opened Seqs
  import opened Checkbox

  /** A value read from the game contract, as far as these pages inspect it. */
  datatype ReadValue = StringValue(s: string) | BoolValue(b: bool) | Undefined | Null | OtherValue

  /** Local state of the selection panel. */
  datatype SearchView = SearchView(checkedItems: seq<CheckboxItem>, snapshot: seq<CheckboxItem>, readComplete: bool)

  /**
   * `readPlayerSearching`. When the page is `ready` (wallet connected, game
   * contract loaded, client present) it asks `playerObjectTypes` for each
   * supported id and sets the `checked` flag of the item at the same position
   * to whether the answer is anything but `false`; the result becomes both the
   * current selection and the snapshot. Otherwise nothing changes.
   */
  method ReadPlayerSearching(view: SearchView, ready: bool, supported: seq<int>,
                             playerObjectTypes: int -> ReadValue) returns (r: SearchView)
    requires |supported| <= |view.checkedItems|
    ensures !ready ==> r == view
    ensures ready ==> r.readComplete && r.snapshot == r.checkedItems
    ensures ready ==> |r.checkedItems| == |view.checkedItems| && Ids(r.checkedItems) == Ids(view.checkedItems)
    ensures ready ==> forall i :: 0 <= i < |supported| ==>
              && (r.checkedItems[i].checked <==> playerObjectTypes(supported[i]) != BoolValue(false))
              && r.checkedItems[i].img == view.checkedItems[i].img
              && r.checkedItems[i].alt == view.checkedItems[i].alt
    ensures ready ==> forall i :: |supported| <= i < |view.checkedItems| ==> r.checkedItems[i] == view.checkedItems[i]
    ensures ready ==> FindDiff(r.checkedItems, r.snapshot) == []
  {
    if !ready {
      return view;
    }
    var temp := view.checkedItems;
    for i := 0 to |supported|
      invariant |temp| == |view.checkedItems|
      invariant forall j :: 0 <= j < |temp| ==> temp[j].id == view.checkedItems[j].id
      invariant forall j :: 0 <= j < i ==>
                  && (temp[j].checked <==> playerObjectTypes(supported[j]) != BoolValue(false))
                  && temp[j].img == view.checkedItems[j].img && temp[j].alt == view.checkedItems[j].alt
      invariant forall j :: i <= j < |temp| ==> temp[j] == view.checkedItems[j]
    {
      var supports := playerObjectTypes(supported[i]);
      if supports == BoolValue(false) {
        temp := temp[i := temp[i].(checked := false)];
      } else {
        temp := temp[i := temp[i].(checked := true)];
      }
    }
    FindDiffSelf(temp);
    r := SearchView(temp, temp, true);
  }

  /**
   * When the items list the supported ids in the same order (as the two
   * constant lists of these pages do), each loaded flag is the contract's
   * answer for that item's own id.
   */
  lemma ReadMatchesOwnIds(view: SearchView, r: SearchView, supported: seq<int>, playerObjectTypes: int -> ReadValue)
    requires |supported| <= |view.checkedItems|
    requires Ids(view.checkedItems)[..|supported|] == supported
    requires Ids(r.checkedItems) == Ids(view.checkedItems)
    requires forall i :: 0 <= i < |supported| ==>
               (r.checkedItems[i].checked <==> playerObjectTypes(supported[i]) != BoolValue(false))
    ensures forall i :: 0 <= i < |supported| ==>
              (r.checkedItems[i].checked <==> playerObjectTypes(r.checkedItems[i].id) != BoolValue(false))
  {
    forall i | 0 <= i < |supported|
      ensures r.checkedItems[i].checked <==> playerObjectTypes(r.checkedItems[i].id) != BoolValue(false)
    {
      assert r.checkedItems[i].id == Ids(r.checkedItems)[i] == Ids(view.checkedItems)[..|supported|][i] == supported[i];
    }
  }

  /** State mutability of an ABI function. */
  datatype Mutability = Pure | View | NonPayable | Payable

  /** An ABI function: its name, mutability and the types of its inputs. */
  datatype AbiFunction = AbiFunction(name: string, stateMutability: Mutability, inputs: seq<string>)

  /** An ABI entry; only functions, events and errors carry a name. */
  datatype AbiEntry =
    | FunctionEntry(fn: AbiFunction)
    | EventEntry(eventName: string)
    | ErrorEntry(errorName: string)
    | ConstructorEntry
    | FallbackEntry
    | ReceiveEntry

  /** The hook callbacks the "write" panel never offers. */
  const HookFunctionNames: seq<string> :=
    ["onAfterCallSystem", "onBeforeCallSystem", "onRegisterHook", "onUnregisterHook", "canUnregister"]

  /** The function entries of an ABI, in order (`part.type === "function"`). */
  function AbiFunctions(abi: seq<AbiEntry>): (r: seq<AbiFunction>)
    ensures |r| <= |abi|
    ensures forall f :: f in r <==> FunctionEntry(f) in abi
  {
    if |abi| == 0 then []
    else
      var rest := AbiFunctions(abi[1..]);
      assert forall e :: e in abi <==> e == abi[0] || e in abi[1..];
      if abi[0].FunctionEntry? then [abi[0].fn] + rest else rest
  }

  predicate IsWriteable(fn: AbiFunction) {
    fn.stateMutability != View && fn.stateMutability != Pure && fn.name !in HookFunctionNames
  }

  predicate IsQueryableWithNoParams(fn: AbiFunction) {
    (fn.stateMutability == View || fn.stateMutability == Pure) && |fn.inputs| == 0
  }

  /** `writeFunctions` before sorting: the state-changing functions that are not hook callbacks. */
  function WriteFunctions(abi: seq<AbiEntry>): (r: seq<AbiFunction>)
    ensures forall f :: f in r <==>
              && FunctionEntry(f) in abi
              && f.stateMutability !in {View, Pure}
              && f.name !in HookFunctionNames
  {
    Filter(AbiFunctions(abi), IsWriteable)
  }

  /** `viewFunctions` before sorting: the view or pure functions taking no argument. */
  function ViewFunctions(abi: seq<AbiEntry>): (r: seq<AbiFunction>)
    ensures forall f :: f in r <==>
              && FunctionEntry(f) in abi
              && f.stateMutability in {View, Pure}
              && |f.inputs| == 0
  {
    Filter(AbiFunctions(abi), IsQueryableWithNoParams)
  }

  /** No function is offered both as a write and as a view. */
  lemma WriteAndViewDisjoint(abi: seq<AbiEntry>, f: AbiFunction)
    ensures !(f in WriteFunctions(abi) && f in ViewFunctions(abi))
  {
  }

  /** `find` by name: the first function with that name, if any. */
  function FindByName(fns: seq<AbiFunction>, name: string): (r: Option<AbiFunction>)
    ensures r.Some? <==> exists f :: f in fns && f.name == name
    ensures r.Some? ==> r.value in fns && r.value.name == name
    ensures r.Some? ==> exists i :: 0 <= i < |fns| && fns[i] == r.value &&
                                    forall j :: 0 <= j < i ==> fns[j].name != name
  {
    if |fns| == 0 then None
    else if fns[0].name == name then Some(fns[0])
    else
      var r := FindByName(fns[1..], name);
      assert forall f :: f in fns && f.name == name ==> f in fns[1..];
      assert r.Some? ==> exists i :: 0 <= i < |fns| && fns[i] == r.value &&
                                     forall j :: 0 <= j < i ==> fns[j].name != name by {
        if r.Some? {
          var i :| 0 <= i < |fns[1..]| && fns[1..][i] == r.value && forall j :: 0 <= j < i ==> fns[1..][j].name != name;
          assert fns[i + 1] == r.value && forall j :: 0 <= j < i + 1 ==> fns[j].name != name;
        }
      }
      r
  }

  /** `registerPlayFunctionData`: found exactly when the ABI has a writeable `setPlayerObjectTypes`. */
  function RegisterPlayFunction(abi: seq<AbiEntry>): (r: Option<AbiFunction>)
    ensures r.Some? <==> exists f :: FunctionEntry(f) in abi && IsWriteable(f) && f.name == "setPlayerObjectTypes"
    ensures r.Some? ==> FunctionEntry(r.value) in abi && r.value.name == "setPlayerObjectTypes"
  {
    FindByName(WriteFunctions(abi), "setPlayerObjectTypes")
  }

  /** `basicGetterFn`: found exactly when the ABI has a no-argument view or pure `basicGetter`. */
  function BasicGetter(abi: seq<AbiEntry>): (r: Option<AbiFunction>)
    ensures r.Some? <==> exists f :: FunctionEntry(f) in abi && IsQueryableWithNoParams(f) && f.name == "basicGetter"
    ensures r.Some? ==> FunctionEntry(r.value) in abi && r.value.name == "basicGetter"
  {
    FindByName(ViewFunctions(abi), "basicGetter")
  }

  /** The name of an entry, where it has one. */
  function EntryName(e: AbiEntry): Option<string> {
    match e
    case FunctionEntry(fn) => Some(fn.name)
    case EventEntry(n) => Some(n)
    case ErrorEntry(n) => Some(n)
    case _ => None
  }

  /** `abi.some(abi => abi.name === name)`. */
  function AbiHasName(abi: seq<AbiEntry>, name: string): (r: bool)
    ensures r <==> exists i :: 0 <= i < |abi| && EntryName(abi[i]) == Some(name)
  {
    if |abi| == 0 then false
    else
      var rest := AbiHasName(abi[1..], name);
      assert rest <==> exists i :: 1 <= i < |abi| && EntryName(abi[i]) == Some(name) by {
        if rest {
          var j :| 0 <= j < |abi[1..]| && EntryName(abi[1..][j]) == Some(name);
          assert EntryName(abi[j + 1]) == Some(name);
        }
        if exists i :: 1 <= i < |abi| && EntryName(abi[i]) == Some(name) {
          var i :| 1 <= i < |abi| && EntryName(abi[i]) == Some(name);
          assert EntryName(abi[1..][i - 1]) == Some(name);
        }
      }
      EntryName(abi[0]) == Some(name) || rest
  }

  /** `toLowerCase` on the ASCII letters an address is written with. */
  function ToLower(s: string): (r: string)
    ensures |r| == |s|
    ensures forall i :: 0 <= i < |s| ==> !('A' <= r[i] <= 'Z')
    ensures forall i :: 0 <= i < |s| ==> ('A' <= s[i] <= 'Z' || r[i] == s[i])
    ensures forall i :: 0 <= i < |s| && 'A' <= s[i] <= 'Z' ==> r[i] == (s[i] as int + 32) as char
  {
    seq(|s|, i requires 0 <= i < |s| =>
      if 'A' <= s[i] <= 'Z' then (s[i] as int - 'A' as int + 'a' as int) as char else s[i])
  }

  /** Lower-casing twice is lower-casing once. */
  lemma ToLowerIdempotent(s: string)
    ensures ToLower(ToLower(s)) == ToLower(s)
  {
    var once := ToLower(s);
    forall i | 0 <= i < |s| ensures ToLower(once)[i] == once[i] {
      assert !('A' <= once[i] <= 'Z');
    }
  }

  /** Address comparison of the delegation check: equal once both are lower-cased. */
  predicate SameAddress(a: string, b: string) {
    ToLower(a) == ToLower(b)
  }

  /** The comparison ignores case on either side and does not depend on argument order. */
  lemma SameAddressIgnoresCase(a: string, b: string)
    ensures SameAddress(ToLower(a), b) <==> SameAddress(a, b)
    ensures SameAddress(a, ToLower(b)) <==> SameAddress(a, b)
    ensures SameAddress(a, b) <==> SameAddress(b, a)
  {
    ToLowerIdempotent(a);
    ToLowerIdempotent(b);
  }

  /** Whether the player is the contract's delegator, and whether delegation counts as done. */
  datatype DelegationState = DelegationState(isDelegatorAddress: bool, delegationRegistered: bool)

  /**
   * `checkDelegatorAddress`. Without a wallet or a loaded contract: not the
   * delegator, delegation done. Without a client: no change. Otherwise the
   * player is the delegator exactly when the contract's `delegatorAddress` is
   * a string equal to the player's address up to case, and delegation is done
   * exactly when the player is not the delegator.
   */
  function CheckDelegatorAddress(st: DelegationState, connected: Option<string>, contractReady: bool,
                                 clientAvailable: bool, delegatorAddress: ReadValue): (r: DelegationState)
    ensures connected.None? || !contractReady ==> r == DelegationState(false, true)
    ensures connected.Some? && contractReady && !clientAvailable ==> r == st
    ensures connected.Some? && contractReady && clientAvailable ==>
              && (r.delegationRegistered <==> !r.isDelegatorAddress)
              && (r.isDelegatorAddress <==>
                    delegatorAddress.StringValue? && SameAddress(delegatorAddress.s, connected.value))
  {
    if connected.None? || !contractReady then DelegationState(false, true)
    else if !clientAvailable then st
    else if !delegatorAddress.StringValue? then DelegationState(false, true)
    else
      var newIsDelegator := ToLower(delegatorAddress.s) == ToLower(connected.value);
      DelegationState(newIsDelegator, if newIsDelegator then false else true)
  }

  /**
   * The first effect of `RegisterBiomes`: once the contract is known, check
   * the delegator if the ABI names `delegatorAddress`, and otherwise count
   * delegation as done.
   */
  function DelegationEffect(st: DelegationState, deployedAbi: Option<seq<AbiEntry>>, connected: Option<string>,
                            loading: bool, clientAvailable: bool, delegatorAddress: ReadValue): (r: DelegationState)
    ensures deployedAbi.None? ==> r == st
    ensures deployedAbi.Some? && !AbiHasName(deployedAbi.value, "delegatorAddress") ==>
              r.delegationRegistered && r.isDelegatorAddress == st.isDelegatorAddress
    ensures deployedAbi.Some? && AbiHasName(deployedAbi.value, "delegatorAddress") ==>
              r == CheckDelegatorAddress(st, connected, !loading, clientAvailable, delegatorAddress)
  {
    if deployedAbi.None? then st
    else if AbiHasName(deployedAbi.value, "delegatorAddress") then
      CheckDelegatorAddress(st, connected, !loading, clientAvailable, delegatorAddress)
    else st.(delegationRegistered := true)
  }

  /** The second effect of `RegisterBiomes`: registered when hooks and delegation both are. */
  function IsBiomesRegistered(hooksRegistered: bool, delegationRegistered: bool): (r: bool)
    ensures r ==> hooksRegistered && delegationRegistered
    ensures hooksRegistered && delegationRegistered ==> r
  {
    hooksRegistered && delegationRegistered
  }

  /**
   * For a contract without `delegatorAddress`, registration is decided by the
   * hooks alone; for one whose delegator is the connected player (up to case),
   * the player is never registered until delegation changes.
   */
  lemma RegistrationDecision(st: DelegationState, abi: seq<AbiEntry>, player: string,
                             clientAvailable: bool, delegatorAddress: ReadValue, hooks: bool)
    ensures !AbiHasName(abi, "delegatorAddress") ==>
              IsBiomesRegistered(hooks, DelegationEffect(st, Some(abi), Some(player), false, clientAvailable, delegatorAddress).delegationRegistered) == hooks
    ensures AbiHasName(abi, "delegatorAddress") && clientAvailable &&
            delegatorAddress.StringValue? && SameAddress(delegatorAddress.s, player) ==>
              !IsBiomesRegistered(hooks, DelegationEffect(st, Some(abi), Some(player), false, clientAvailable, delegatorAddress).delegationRegistered)
  {
  }
}
