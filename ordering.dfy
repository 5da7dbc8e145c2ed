/** Canonical ordering of a vault pair (`sortAddresses`) and the init arguments
    of the pool and of the liquidity-deposit contract derived from it. */
module Ordering {
  import opened Addresses

  /** The record `sortAddresses` returns: the ordered pair and the amounts
      that travel with each address. */
  datatype SortedPair = SortedPair(lower: Address, higher: Address, leftAmount: int, rightAmount: int)

  /** Reference definition of the canonical pair: the two addresses, each with its
      own amount, ordered by key, and on equal keys the second address first. */
  ghost predicate IsCanonicalPair(r: SortedPair, address1: Address, address2: Address, leftAmount: int, rightAmount: int) {
    && ((r.lower == address1 && r.leftAmount == leftAmount && r.higher == address2 && r.rightAmount == rightAmount)
        || (r.lower == address2 && r.leftAmount == rightAmount && r.higher == address1 && r.rightAmount == leftAmount))
    && HashKey(r.lower) <= HashKey(r.higher)
    && (HashKey(address1) == HashKey(address2) ==> r.lower == address2 && r.leftAmount == rightAmount)
  }

  /** The first address is lower exactly when its key is strictly smaller. For
      32-byte hashes that is byte-wise order of the hashes; equal hashes never
      put the first address lower. */
  predicate FirstIsLower(address1: Address, address2: Address): (lower: bool)
    ensures lower ==> address1.hash != address2.hash
    ensures WellFormed(address1) && WellFormed(address2) ==> (lower <==> LexLess(address1.hash, address2.hash))
  {
    if WellFormed(address1) && WellFormed(address2) then
      HashKeyInjective(address1, address2);
      HashKey(address1) < HashKey(address2)
    else
      HashKey(address1) < HashKey(address2)
  }

  function SortAddresses(address1: Address, address2: Address, leftAmount: int, rightAmount: int): (r: SortedPair)
    ensures IsCanonicalPair(r, address1, address2, leftAmount, rightAmount)
    ensures FirstIsLower(address1, address2) <==> r.lower == address1 && HashKey(r.lower) < HashKey(r.higher)
  {
    if FirstIsLower(address1, address2) then
      SortedPair(address1, address2, leftAmount, rightAmount)
    else
      SortedPair(address2, address1, rightAmount, leftAmount)
  }

  /** The reference definition admits exactly one pair, the one `SortAddresses` returns. */
  lemma CanonicalPairUnique(r: SortedPair, address1: Address, address2: Address, leftAmount: int, rightAmount: int)
    requires IsCanonicalPair(r, address1, address2, leftAmount, rightAmount)
    ensures r == SortAddresses(address1, address2, leftAmount, rightAmount)
  {
  }

  /** Naming the pair in the other order, amounts swapped with it, gives the same
      result exactly when the keys differ (or nothing was swapped at all). */
  lemma SortSymmetric(address1: Address, address2: Address, leftAmount: int, rightAmount: int)
    ensures SortAddresses(address1, address2, leftAmount, rightAmount) == SortAddresses(address2, address1, rightAmount, leftAmount)
        <==> HashKey(address1) != HashKey(address2) || (address1 == address2 && leftAmount == rightAmount)
  {
  }

  /** On equal keys the else branch runs: the second address becomes lower and
      the amounts are exchanged. */
  lemma SortTieTakesSecond(address1: Address, address2: Address, leftAmount: int, rightAmount: int)
    requires HashKey(address1) == HashKey(address2)
    ensures SortAddresses(address1, address2, leftAmount, rightAmount) == SortedPair(address2, address1, rightAmount, leftAmount)
  {
  }

  /** Sorting a sorted pair again leaves it unchanged exactly when the keys differ
      (or the tie-break's swap is invisible). */
  lemma ResortIsIdentity(address1: Address, address2: Address, leftAmount: int, rightAmount: int)
    ensures var r := SortAddresses(address1, address2, leftAmount, rightAmount);
      (SortAddresses(r.lower, r.higher, r.leftAmount, r.rightAmount) == r)
      <==> HashKey(address1) != HashKey(address2) || (address1 == address2 && leftAmount == rightAmount)
  {
  }

  /** The workchain is never consulted: changing the workchains of the inputs
      changes neither the amounts' order nor which hash ends up lower. */
  lemma SortIgnoresWorkchain(address1: Address, address2: Address, workchain1: int, workchain2: int, leftAmount: int, rightAmount: int)
    ensures var r := SortAddresses(address1, address2, leftAmount, rightAmount);
      var s := SortAddresses(address1.(workchain := workchain1), address2.(workchain := workchain2), leftAmount, rightAmount);
      s.leftAmount == r.leftAmount && s.rightAmount == r.rightAmount
      && s.lower.hash == r.lower.hash && s.higher.hash == r.higher.hash
  {
  }

  /** For well-formed addresses the first one is lower exactly when its hash bytes
      come first lexicographically; on identical hashes the second one is lower. */
  lemma SortByHashBytes(address1: Address, address2: Address, leftAmount: int, rightAmount: int)
    requires WellFormed(address1) && WellFormed(address2)
    ensures var r := SortAddresses(address1, address2, leftAmount, rightAmount);
      && (LexLess(address1.hash, address2.hash) ==> r == SortedPair(address1, address2, leftAmount, rightAmount))
      && (!LexLess(address1.hash, address2.hash) ==> r == SortedPair(address2, address1, rightAmount, leftAmount))
      && !LexLess(r.higher.hash, r.lower.hash)
  {
    HashKeyInjective(address1, address2);
    HashKeyInjective(address2, address1);
  }

  // ---------------------------------------------------------------------------
  // Contract identities derived from the ordered pair

  /** Init arguments of the pool contract: the ordered vaults and three zero
      initial values, the first two of them the pool's left and right sides. */
  datatype PoolInit = PoolInit(leftVault: Address, rightVault: Address, leftSide: int, rightSide: int, thirdInit: int)

  /** Init arguments of a liquidity-deposit contract. */
  datatype DepositInit = DepositInit(
    leftVault: Address, rightVault: Address,
    leftAmount: int, rightAmount: int,
    depositor: Address, contractId: nat, status: int)

  /** The pool a client addresses for two vaults, named in either order. The
      multiset clause is a consequence of the canonical-pair clause, spelled out. */
  function AmmPoolInit(vaultLeft: Address, vaultRight: Address): (p: PoolInit)
    ensures IsCanonicalPair(SortedPair(p.leftVault, p.rightVault, 0, 0), vaultLeft, vaultRight, 0, 0)
    ensures multiset{p.leftVault, p.rightVault} == multiset{vaultLeft, vaultRight}
    ensures p.leftSide == 0 && p.rightSide == 0 && p.thirdInit == 0
  {
    var sorted := SortAddresses(vaultLeft, vaultRight, 0, 0);
    PoolInit(sorted.lower, sorted.higher, 0, 0, 0)
  }

  /** The deposit contract for one deposit: the canonical pair with each amount
      beside its own vault, the depositor, the depositor's id and a zero status. */
  function LiquidityDepositInit(depositor: Address, vaultLeft: Address, vaultRight: Address,
                                amountLeft: int, amountRight: int, contractId: nat): (d: DepositInit)
    ensures IsCanonicalPair(SortedPair(d.leftVault, d.rightVault, d.leftAmount, d.rightAmount),
                            vaultLeft, vaultRight, amountLeft, amountRight)
    ensures d.depositor == depositor && d.contractId == contractId && d.status == 0
  {
    var sorted := SortAddresses(vaultLeft, vaultRight, amountLeft, amountRight);
    DepositInit(sorted.lower, sorted.higher, sorted.leftAmount, sorted.rightAmount, depositor, contractId, 0)
  }

  /** For well-formed vaults the pool identity does not depend on the order the
      vaults are named in, unless two distinct vaults share one hash. */
  lemma PoolIdentitySymmetric(vaultA: Address, vaultB: Address)
    requires WellFormed(vaultA) && WellFormed(vaultB)
    ensures AmmPoolInit(vaultA, vaultB) == AmmPoolInit(vaultB, vaultA) <==> vaultA.hash != vaultB.hash || vaultA == vaultB
  {
    HashKeyInjective(vaultA, vaultB);
  }

  /** Same for the deposit contract, with the amounts swapped along with the vaults. */
  lemma DepositIdentitySymmetric(depositor: Address, vaultA: Address, vaultB: Address,
                                 amountA: int, amountB: int, contractId: nat)
    requires WellFormed(vaultA) && WellFormed(vaultB)
    ensures LiquidityDepositInit(depositor, vaultA, vaultB, amountA, amountB, contractId)
              == LiquidityDepositInit(depositor, vaultB, vaultA, amountB, amountA, contractId)
        <==> vaultA.hash != vaultB.hash || (vaultA == vaultB && amountA == amountB)
  {
    HashKeyInjective(vaultA, vaultB);
  }

  /** A deposit contract and the pool for the same two vaults agree on which vault
      is left and which is right. */
  lemma DepositMatchesPool(depositor: Address, vaultA: Address, vaultB: Address,
                           amountA: int, amountB: int, contractId: nat)
    ensures var d := LiquidityDepositInit(depositor, vaultA, vaultB, amountA, amountB, contractId);
      var p := AmmPoolInit(vaultA, vaultB);
      d.leftVault == p.leftVault && d.rightVault == p.rightVault
  {
  }
}
