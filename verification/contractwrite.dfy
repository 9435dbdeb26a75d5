/**
 * The two buttons that send the selection change to the game contract:
 * `SubmitSelect` (packages/nextjs/components/FunctionalButtons.tsx) and
 * `SendEthButton` (packages/nextjs/app/debug/_components/contract/SendEthButton.tsx).
 * Both send only the ids whose selection changed since the snapshot.
 */
module ContractWrite {
  import opened Checkbox

  /** A contract write as handed to the wallet: target, function name, arguments. */
  datatype WriteCall = WriteCall(address: string, functionName: string, args: seq<seq<int>>)

  /** The game function both buttons end up calling. */
  const SetPlayerObjectTypes: string := "setPlayerObjectTypes"

  /** `SubmitSelect`'s write: `setPlayerObjectTypes` with the diff as its only argument. */
  function SubmitSelectCall(hookAddress: string, objectIds: seq<CheckboxItem>, snapshot: seq<CheckboxItem>): (r: WriteCall)
    requires |objectIds| <= |snapshot|
    ensures r.address == hookAddress && r.functionName == SetPlayerObjectTypes
    ensures r.args == [FindDiff(objectIds, snapshot)]
    ensures |r.args| == 1 && |r.args[0]| <= |objectIds|
  {
    WriteCall(hookAddress, SetPlayerObjectTypes, [FindDiff(objectIds, snapshot)])
  }

  /**
   * `SendEthButton`'s `findDiff`, written as the index loop it amounts to
   * (its logging left aside): it computes the same list as the
   * `FunctionalButtons` version.
   */
  method SendEthFindDiff(a: seq<CheckboxItem>, b: seq<CheckboxItem>) returns (diff: seq<int>)
    requires |a| <= |b|
    ensures diff == FindDiff(a, b)
  {
    diff := [];
    var index := 0;
    while index < |a|
      invariant 0 <= index <= |a|
      invariant diff == FindDiff(a[..index], b[..index])
    {
      FindDiffStep(a, b, index);
      if a[index].checked != b[index].checked {
        diff := diff + [a[index].id];
      }
      index := index + 1;
    }
    FindDiffAppend(a, [], b[..|a|], b[|a|..]);
    assert a + [] == a && b[..|a|] + b[|a|..] == b;
  }

  /**
   * `SendEthButton`'s write: the given function with the diff as its only
   * argument; called with `setPlayerObjectTypes`, it is `SubmitSelect`'s write.
   */
  method SendEthWrite(contractAddress: string, functionName: string,
                      objectIds: seq<CheckboxItem>, snapshot: seq<CheckboxItem>) returns (call: WriteCall)
    requires |objectIds| <= |snapshot|
    ensures call.address == contractAddress && call.functionName == functionName
    ensures call.args == [FindDiff(objectIds, snapshot)]
    ensures functionName == SetPlayerObjectTypes ==> call == SubmitSelectCall(contractAddress, objectIds, snapshot)
  {
    var diff := SendEthFindDiff(objectIds, snapshot);
    call := WriteCall(contractAddress, functionName, [diff]);
  }

  /**
   * After a single toggle of a listed id (ids distinct), submitting sends
   * exactly that id; with no change since the snapshot it sends an empty list.
   */
  lemma SubmitAfterToggle(hookAddress: string, snapshot: seq<CheckboxItem>, k: int)
    requires DistinctIds(snapshot) && k in Ids(snapshot)
    ensures SubmitSelectCall(hookAddress, Toggle(snapshot, k), snapshot).args == [[k]]
    ensures SubmitSelectCall(hookAddress, snapshot, snapshot).args == [[]]
  {
    ToggleThenDiff(snapshot, k);
    FindDiffSelf(snapshot);
  }
}
