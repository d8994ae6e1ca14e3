/** The arithmetic of the ledger check: what one wrapping check decides, and what the checks of a whole cohort say about
    its funding. */
module Ledgers {
  import opened Prelude
  import opened Evidence
  import opened ClosedLoop

  // ── One check ─────────────────────────────────────────────────────────

  /** The wrapping product is the exact one reduced once. */
  lemma WrapProduct(balance: u256, settled: u128)
    ensures Wrap(Wrap(balance + settled) * BPS) == ((balance + settled) * BPS) % U256_LIMIT
  {
    var n := balance + settled;
    if n >= U256_LIMIT {
      assert n % U256_LIMIT == n - U256_LIMIT by {
        assert U256_LIMIT <= n < 2 * U256_LIMIT;
        SubtractMultiple(n, 1);
        SmallMod(n - U256_LIMIT);
      }
      SubtractMultiple(n * BPS, BPS);
      assert (n - U256_LIMIT) * BPS == n * BPS - BPS * U256_LIMIT;
    }
  }

  ghost predicate ExactLedger(balance: nat, settled: nat, funded: nat) {
    (balance + settled) * BPS <= funded * (BPS + EPSILON_LEDGER_BPS)
  }

  const MAX_LEDGER_ALLOWANCE: nat := (U128_LIMIT - 1) * (BPS + EPSILON_LEDGER_BPS)

  lemma LedgerCheckIs(balance: u256, settled: u128, funded: u128)
    ensures LedgerCheck(balance, settled, funded)
      <==> ((balance + settled) * 10_000) % U256_LIMIT <= funded * 10_500
  {
    WrapProduct(balance, settled);
    assert funded * (BPS + EPSILON_LEDGER_BPS) <= MAX_LEDGER_ALLOWANCE < U256_LIMIT;
  }

  /** The wrapping check decides the exact inequality, for every funded amount, if and only if the left product
      does not wrap or wraps to more than any u128 funding can allow. */
  lemma LedgerCheckExactIff(balance: u256, settled: u128)
    ensures (forall funded: u128 :: LedgerCheck(balance, settled, funded) <==> ExactLedger(balance, settled, funded))
      <==> (balance + settled) * BPS < U256_LIMIT || ((balance + settled) * BPS) % U256_LIMIT > MAX_LEDGER_ALLOWANCE
  {
    var exact := (balance + settled) * BPS;
    forall funded: u128
      ensures LedgerCheck(balance, settled, funded) <==> exact % U256_LIMIT <= funded * (BPS + EPSILON_LEDGER_BPS)
    {
      LedgerCheckIs(balance, settled, funded);
    }
    if exact < U256_LIMIT {
      SmallMod(exact);
    } else {
      var most: u128 := U128_LIMIT - 1;
      assert !ExactLedger(balance, settled, most);
      assert LedgerCheck(balance, settled, most) <==> exact % U256_LIMIT <= MAX_LEDGER_ALLOWANCE;
      forall funded: u128
        ensures !ExactLedger(balance, settled, funded)
      {
        assert funded * (BPS + EPSILON_LEDGER_BPS) <= MAX_LEDGER_ALLOWANCE;
      }
    }
  }

  /** A balance of 2^256 - 1 wraps: the check accepts one settled unit against no funding at all. */
  lemma LedgerCheckWraps()
    ensures LedgerCheck(U256_LIMIT - 1, 1, 0) && !ExactLedger(U256_LIMIT - 1, 1, 0)
  {
    WrapProduct(U256_LIMIT - 1, 1);
  }

  /** The least funding that passes. */
  function LeastFunding(balance: u256, settled: u128): nat {
    CeilDiv(((balance + settled) * BPS) % U256_LIMIT, BPS + EPSILON_LEDGER_BPS)
  }

  lemma LeastFundingIsLeast(balance: u256, settled: u128, funded: u128)
    ensures LedgerCheck(balance, settled, funded) <==> LeastFunding(balance, settled) <= funded
  {
    LedgerCheckIs(balance, settled, funded);
    CeilDivIsLeast(((balance + settled) * BPS) % U256_LIMIT, BPS + EPSILON_LEDGER_BPS, funded);
  }

  // ── A cohort ──────────────────────────────────────────────────────────

  /** The period-end balance of one buyer and what it settled. */
  datatype Account = Account(balance: u256, settled: u128)

  function LeastOf(a: Account): nat {
    LeastFunding(a.balance, a.settled)
  }

  function SettledOf(a: Account): nat {
    a.settled
  }

  function Sum(amounts: seq<nat>): nat {
    SumBy(amounts, Same)
  }

  /** Every buyer passes its ledger check with its funding. */
  ghost predicate Passes(accounts: seq<Account>, fundings: seq<u128>) {
    && |fundings| == |accounts|
    && forall k :: 0 <= k < |accounts| ==> LedgerCheck(accounts[k].balance, accounts[k].settled, fundings[k])
  }

  /** Fundings that pass, with a total that fits u128. */
  ghost predicate Funds(accounts: seq<Account>, fundings: seq<u128>) {
    Passes(accounts, fundings) && Sum(fundings) < U128_LIMIT
  }

  lemma {:induction false} PassingAtLeast(accounts: seq<Account>, fundings: seq<u128>)
    requires Passes(accounts, fundings)
    ensures SumBy(accounts, LeastOf) <= Sum(fundings)
    decreases |accounts|
  {
    if accounts != [] {
      var n := |accounts| - 1;
      PassingAtLeast(accounts[..n], fundings[..n]);
      LeastFundingIsLeast(accounts[n].balance, accounts[n].settled, fundings[n]);
    }
  }

  lemma {:induction false} SumOfLeast(accounts: seq<Account>, fundings: seq<u128>)
    requires |fundings| == |accounts| && forall k :: 0 <= k < |accounts| ==> fundings[k] == LeastOf(accounts[k])
    ensures Sum(fundings) == SumBy(accounts, LeastOf)
    decreases |accounts|
  {
    if accounts != [] {
      var n := |accounts| - 1;
      SumOfLeast(accounts[..n], fundings[..n]);
    }
  }

  /** The least fundings pass, when their total fits u128. */
  lemma LeastFund(accounts: seq<Account>) returns (fundings: seq<u128>)
    requires SumBy(accounts, LeastOf) < U128_LIMIT
    ensures Funds(accounts, fundings) && Sum(fundings) == SumBy(accounts, LeastOf)
  {
    hide LeastFunding, LedgerCheck;
    forall k | 0 <= k < |accounts|
      ensures LeastOf(accounts[k]) < U128_LIMIT
    {
      SumByTerm(accounts, LeastOf, k);
    }
    fundings := seq(|accounts|, k requires 0 <= k < |accounts| => LeastOf(accounts[k]));
    SumOfLeast(accounts, fundings);
    forall k | 0 <= k < |accounts|
      ensures LedgerCheck(accounts[k].balance, accounts[k].settled, fundings[k])
    {
      LeastFundingIsLeast(accounts[k].balance, accounts[k].settled, fundings[k]);
    }
  }

  /** The least fundings do not fit, or reach the ratio: `funded * a >= settled * b`. */
  ghost predicate Forced(accounts: seq<Account>, a: nat, b: nat) {
    var least := SumBy(accounts, LeastOf);
    least >= U128_LIMIT || least * a >= SumBy(accounts, SettledOf) * b
  }

  /** Every funding of the cohort that passes its ledgers reaches a ratio if and only if the least one does. */
  lemma RatioForcedIff(accounts: seq<Account>, a: nat, b: nat)
    ensures (forall fundings: seq<u128> :: Funds(accounts, fundings) ==>
              Sum(fundings) * a >= SumBy(accounts, SettledOf) * b)
      <==> Forced(accounts, a, b)
  {
    hide SumBy, Passes;
    var least := SumBy(accounts, LeastOf);
    if Forced(accounts, a, b) {
      forall fundings: seq<u128> | Funds(accounts, fundings)
        ensures Sum(fundings) * a >= SumBy(accounts, SettledOf) * b
      {
        PassingAtLeast(accounts, fundings);
        MulOrder(least, Sum(fundings), a);
      }
    } else {
      var fundings := LeastFund(accounts);
      assert Sum(fundings) == least;
    }
  }

  /** Where no product wraps, the least fundings cover 1/1.05 of the settled volume, hence nine tenths. */
  lemma {:induction false} LeastWithoutWrap(accounts: seq<Account>)
    requires forall k :: 0 <= k < |accounts| ==> (accounts[k].balance + accounts[k].settled) * BPS < U256_LIMIT
    ensures SumBy(accounts, LeastOf) * (BPS + EPSILON_LEDGER_BPS) >= SumBy(accounts, SettledOf) * BPS
    ensures Forced(accounts, BPS + EPSILON_LEDGER_BPS, BPS) && Forced(accounts, BPS, ALPHA_FUND_BPS)
    decreases |accounts|
  {
    hide CeilDiv;
    if accounts != [] {
      var n := |accounts| - 1;
      LeastWithoutWrap(accounts[..n]);
      var (balance, settled) := (accounts[n].balance, accounts[n].settled);
      SmallMod((balance + settled) * BPS);
      CeilDivIsLeast((balance + settled) * BPS, BPS + EPSILON_LEDGER_BPS, LeastFunding(balance, settled));
    }
  }

  /** A wrapping balance need not break the coverage: this one passes only from 952 funded, which covers 1000. */
  lemma WrapMayStillCover()
    ensures Forced([Account(U256_LIMIT - 1, 1000)], BPS, ALPHA_FUND_BPS)
  {
    var accounts := [Account(U256_LIMIT - 1, 1000)];
    var exact := (U256_LIMIT - 1 + 1000) * BPS;
    SubtractMultiple(exact, BPS);
    SmallMod(999 * BPS);
    assert exact - BPS * U256_LIMIT == 999 * BPS;
    assert LeastOf(accounts[0]) == 952;
    assert accounts[..0] == [];
  }
}
