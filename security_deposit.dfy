/** The wizard step for the security deposit: a whole amount and a currency picked from a list
    the server supplies. */
module SecurityDeposit {
  import opened Wrappers
  import opened JsText

  datatype DepositFields = DepositFields(amount: string, currency: string)

  /** `handleAmountChange`: digits only; the empty string passes. */
  function HandleAmountChange(f: DepositFields, value: string): DepositFields {
    if IsDigits(value) then f.(amount := value) else f
  }

  /** `handleCurrencyChange`: any selected value is taken as it is. */
  function HandleCurrencyChange(f: DepositFields, value: string): DepositFields {
    f.(currency := value)
  }

  predicate NextDisabled(f: DepositFields) {
    f.amount == "" || f.currency == ""
  }

  /** The amount field only ever holds digits. */
  predicate Valid(f: DepositFields) {
    IsDigits(f.amount)
  }

  /** An amount edit is taken exactly when it is all digits and touches nothing else; a currency
      edit only replaces the currency; both keep the amount a digit string. */
  lemma HandlersKeepValid(f: DepositFields, value: string)
    requires Valid(f)
    ensures HandleAmountChange(f, value).amount == (if IsDigits(value) then value else f.amount)
    ensures HandleAmountChange(f, value).currency == f.currency
    ensures HandleCurrencyChange(f, value) == DepositFields(f.amount, value)
    ensures Valid(HandleAmountChange(f, value)) && Valid(HandleCurrencyChange(f, value))
  {
  }

  /** A row of the currencies endpoint; only its `currency` column is read. */
  datatype CurrencyItem = CurrencyItem(currency: string)

  /** `data.map(item => item.currency)` */
  function CurrencyNames(items: seq<CurrencyItem>): (r: seq<string>)
    ensures |r| == |items|
    ensures forall i | 0 <= i < |items| :: r[i] == items[i].currency
  {
    if |items| == 0 then [] else [items[0].currency] + CurrencyNames(items[1..])
  }

  /** Once Next is enabled, the legacy route reads the amount back as its decimal value; an amount
      of zeros passes this step although the route then rejects it as falsy. */
  lemma AmountReadByRoute(f: DepositFields)
    requires Valid(f) && !NextDisabled(f)
    ensures ParseInt(f.amount, Unspecified) == Some(DecimalValue(f.amount))
  {
    assert f.amount[0] != 'x' && (|f.amount| >= 2 ==> f.amount[1] != 'x' && f.amount[1] != 'X');
    ParseIntOfDigits(f.amount, Unspecified);
  }
}
