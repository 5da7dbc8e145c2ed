/** The client's per-depositor sequence ids for liquidity-deposit contracts.

    A shared table maps each depositor to the id its next deposit contract gets.
    Each request reads the depositor's entry (0 when absent), stores one more,
    and derives the deposit contract from the ordered vault pair and that id. */
module DepositIds {
  import opened Addresses
  import opened Ordering

  /** The id stored for a depositor, 0 for a depositor never seen. */
  function IdOf(ids: map<Address, nat>, depositor: Address): (id: nat)
    ensures depositor in ids ==> id == ids[depositor]
    ensures depositor !in ids ==> id == 0
  {
    if depositor in ids then ids[depositor] else 0
  }

  /** The table after one request by `depositor`. */
  function Bump(ids: map<Address, nat>, depositor: Address): (next: map<Address, nat>)
    ensures IdOf(next, depositor) == IdOf(ids, depositor) + 1
    ensures forall d :: d != depositor ==> IdOf(next, d) == IdOf(ids, d)
    ensures next.Keys == ids.Keys + {depositor}
  {
    ids[depositor := IdOf(ids, depositor) + 1]
  }

  /** The table after requests by `depositors`, in order. */
  function TableAfter(ids: map<Address, nat>, depositors: seq<Address>): map<Address, nat> {
    if depositors == [] then ids
    else Bump(TableAfter(ids, depositors[..|depositors| - 1]), depositors[|depositors| - 1])
  }

  /** The ids handed out to requests by `depositors`, in order. */
  function IdsIssued(ids: map<Address, nat>, depositors: seq<Address>): (issued: seq<nat>)
    ensures |issued| == |depositors|
  {
    if depositors == [] then []
    else
      var earlier := depositors[..|depositors| - 1];
      IdsIssued(ids, earlier) + [IdOf(TableAfter(ids, earlier), depositors[|depositors| - 1])]
  }

  /** After a run of requests each depositor's entry has grown by the number of
      requests it made, and by nothing else. */
  lemma {:induction false} TableCounts(ids: map<Address, nat>, depositors: seq<Address>, d: Address)
    ensures IdOf(TableAfter(ids, depositors), d) == IdOf(ids, d) + multiset(depositors)[d]
  {
    if depositors != [] {
      var earlier := depositors[..|depositors| - 1];
      TableCounts(ids, earlier, d);
      assert depositors == earlier + [depositors[|depositors| - 1]];
    }
  }

  /** The id of the i-th request is the depositor's starting entry plus the
      number of its earlier requests. */
  lemma {:induction false} IdsIssuedCount(ids: map<Address, nat>, depositors: seq<Address>, i: nat)
    requires i < |depositors|
    ensures IdsIssued(ids, depositors)[i] == IdOf(ids, depositors[i]) + multiset(depositors[..i])[depositors[i]]
  {
    var n := |depositors|;
    var earlier := depositors[..n - 1];
    if i == n - 1 {
      assert earlier == depositors[..i];
      TableCounts(ids, earlier, depositors[i]);
    } else {
      IdsIssuedCount(ids, earlier, i);
      assert earlier[..i] == depositors[..i];
    }
  }

  /** A depositor never gets the same id twice: its later requests get larger ids. */
  lemma IdsStrictlyIncrease(ids: map<Address, nat>, depositors: seq<Address>, i: nat, j: nat)
    requires i < j < |depositors| && depositors[i] == depositors[j]
    ensures IdsIssued(ids, depositors)[i] < IdsIssued(ids, depositors)[j]
  {
    IdsIssuedCount(ids, depositors, i);
    IdsIssuedCount(ids, depositors, j);
    assert depositors[..j] == depositors[..i] + depositors[i..j];
    assert depositors[i] in multiset(depositors[i..j]);
  }

  /** Two deposit requests by one depositor therefore give init arguments that
      differ in their contract id, whatever vaults and amounts they name. */
  lemma DepositContractsDistinct(ids: map<Address, nat>, depositors: seq<Address>, i: nat, j: nat,
                                 vaultA: Address, vaultB: Address, amountA: int, amountB: int,
                                 vaultC: Address, vaultD: Address, amountC: int, amountD: int)
    requires i < j < |depositors| && depositors[i] == depositors[j]
    ensures var issued := IdsIssued(ids, depositors);
      LiquidityDepositInit(depositors[i], vaultA, vaultB, amountA, amountB, issued[i])
        != LiquidityDepositInit(depositors[j], vaultC, vaultD, amountC, amountD, issued[j])
  {
    IdsStrictlyIncrease(ids, depositors, i, j);
  }

  /** The shared table of the test suite, with the requests made so far. */
  class DepositorIds {
    var ids: map<Address, nat>
    ghost var requests: seq<Address>

    ghost predicate Valid()
      reads this
    {
      ids == TableAfter(map[], requests)
    }

    constructor ()
      ensures Valid() && ids == map[] && requests == []
    {
      ids := map[];
      requests := [];
    }

    /** Reads the depositor's entry, 0 when absent, and stores one more. */
    method NextContractId(depositor: Address) returns (contractId: nat)
      requires Valid()
      modifies this
      ensures Valid() && requests == old(requests) + [depositor]
      ensures contractId == IdOf(old(ids), depositor)
      ensures contractId == multiset(old(requests))[depositor]
      ensures contractId == IdsIssued(map[], requests)[|old(requests)|]
      ensures ids == old(ids)[depositor := contractId + 1]
    {
      contractId := if depositor in ids then ids[depositor] else 0;
      ids := ids[depositor := contractId + 1];
      requests := requests + [depositor];
      TableCounts(map[], old(requests), depositor);
    }

    /** Allocates the depositor's next id and derives the deposit contract for it. */
    method LiquidityDepositContract(depositor: Address, vaultLeft: Address, vaultRight: Address,
                                    amountLeft: int, amountRight: int) returns (init: DepositInit)
      requires Valid()
      modifies this
      ensures Valid() && requests == old(requests) + [depositor]
      ensures init == LiquidityDepositInit(depositor, vaultLeft, vaultRight, amountLeft, amountRight,
                                           multiset(old(requests))[depositor])
      ensures init.contractId == IdsIssued(map[], requests)[|old(requests)|]
      ensures ids == old(ids)[depositor := init.contractId + 1]
    {
      var contractId := NextContractId(depositor);
      init := LiquidityDepositInit(depositor, vaultLeft, vaultRight, amountLeft, amountRight, contractId);
    }
  }
}
