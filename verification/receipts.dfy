/** Get_app_status: deriving the sequence of receipt numbers from the first
    one and collecting the status panel the site shows for each. */
module Receipts {
  import opened Failures
  import opened PyText

  /** first_receipt_num[0:3]. Python clamps the slice, so a shorter string is kept whole. */
  function Letters(receipt: string): (p: string)
    ensures |p| == if |receipt| < 3 then |receipt| else 3
  {
    receipt[..if |receipt| < 3 then |receipt| else 3]
  }

  /** first_receipt_num[3:], the part read as a number. */
  function NumberPart(receipt: string): (s: string)
    ensures Letters(receipt) + s == receipt
  {
    receipt[|Letters(receipt)|..]
  }

  /** letters + str(first + i) for i in range(count); empty when count <= 0. */
  function Sequence(letters: string, first: int, count: int): (rs: seq<string>)
    ensures |rs| == if count < 0 then 0 else count
  {
    seq(if count < 0 then 0 else count, i => letters + IntToString(first + i))
  }

  /** The receipt numbers the loop of Get_app_status submits. int() of the
      number part runs before the loop, so it fails even when count <= 0. */
  function ReceiptNumbers(firstReceipt: string, count: int): (r: Result<seq<string>>)
    ensures r.Ok? <==> ParseInt(NumberPart(firstReceipt)).Some?
    ensures r.Err? ==> r.error == NotAnInteger
    ensures r.Ok? ==> |r.value| == if count < 0 then 0 else count
  {
    match ParseInt(NumberPart(firstReceipt))
    case None => Err(NotAnInteger)
    case Some(n) => Ok(Sequence(Letters(firstReceipt), n, count))
  }

  /** Receipt i is the first receipt's letters followed by str(n + i), where
      n is the value of the first receipt's number part. */
  lemma ReceiptAt(firstReceipt: string, count: int, i: int)
    requires ReceiptNumbers(firstReceipt, count).Ok?
    requires 0 <= i < |ReceiptNumbers(firstReceipt, count).value|
    ensures ReceiptNumbers(firstReceipt, count).value[i]
         == Letters(firstReceipt) + IntToString(ParseInt(NumberPart(firstReceipt)).value + i)
  {
  }

  /** All receipts at once: count of them (none for a negative count), the
      k-th spelled as the letters followed by str(n + k). */
  lemma ReceiptsSpelled(firstReceipt: string, count: int, n: int)
    requires ParseInt(NumberPart(firstReceipt)) == Some(n)
    ensures ReceiptNumbers(firstReceipt, count).Ok?
    ensures var rs := ReceiptNumbers(firstReceipt, count).value;
      && |rs| == (if count < 0 then 0 else count)
      && forall k :: 0 <= k < |rs| ==> rs[k] == Letters(firstReceipt) + IntToString(n + k)
  {
    var rs := ReceiptNumbers(firstReceipt, count).value;
    forall k | 0 <= k < |rs|
      ensures rs[k] == Letters(firstReceipt) + IntToString(n + k)
    {
      ReceiptAt(firstReceipt, count, k);
    }
  }

  /** Every derived receipt starts with the letters of the first one. */
  lemma ReceiptsKeepLetters(firstReceipt: string, count: int, i: int)
    requires ReceiptNumbers(firstReceipt, count).Ok?
    requires 0 <= i < |ReceiptNumbers(firstReceipt, count).value|
    ensures var r := ReceiptNumbers(firstReceipt, count).value[i];
      |Letters(firstReceipt)| <= |r| && r[..|Letters(firstReceipt)|] == Letters(firstReceipt)
  {
    ReceiptAt(firstReceipt, count, i);
  }

  /** The text after the letters reads back as the number that was appended. */
  lemma NumberReadsBack(letters: string, k: int)
    ensures |letters| <= |letters + IntToString(k)|
    ensures ParseInt((letters + IntToString(k))[|letters|..]) == Some(k)
  {
    assert (letters + IntToString(k))[|letters|..] == IntToString(k);
    IntRoundTrip(k);
  }

  /** The number part of receipt i reads back as the first number plus i. */
  lemma ReceiptNumberValue(firstReceipt: string, count: int, i: int)
    requires ReceiptNumbers(firstReceipt, count).Ok?
    requires 0 <= i < |ReceiptNumbers(firstReceipt, count).value|
    ensures var r := ReceiptNumbers(firstReceipt, count).value[i];
      && |Letters(firstReceipt)| <= |r|
      && ParseInt(r[|Letters(firstReceipt)|..])
         == Some(ParseInt(NumberPart(firstReceipt)).value + i)
  {
    ReceiptAt(firstReceipt, count, i);
    NumberReadsBack(Letters(firstReceipt), ParseInt(NumberPart(firstReceipt)).value + i);
  }

  /** Receipts come out in ascending order, consecutive ones one apart, all distinct. */
  lemma ReceiptsAscending(firstReceipt: string, count: int, i: int, j: int)
    requires ReceiptNumbers(firstReceipt, count).Ok?
    requires 0 <= i < j < |ReceiptNumbers(firstReceipt, count).value|
    ensures var rs := ReceiptNumbers(firstReceipt, count).value;
      var k := |Letters(firstReceipt)|;
      && k <= |rs[i]| && k <= |rs[j]|
      && ParseInt(rs[i][k..]).Some? && ParseInt(rs[j][k..]).Some?
      && ParseInt(rs[i][k..]).value < ParseInt(rs[j][k..]).value
      && (j == i + 1 ==> ParseInt(rs[j][k..]).value == ParseInt(rs[i][k..]).value + 1)
      && rs[i] != rs[j]
  {
    ReceiptNumberValue(firstReceipt, count, i);
    ReceiptNumberValue(firstReceipt, count, j);
  }

  /** When the number part is already written as str() writes it, the first
      derived receipt is the first receipt itself. */
  lemma FirstReceiptKept(firstReceipt: string, count: int)
    requires count >= 1
    requires ParseInt(NumberPart(firstReceipt)).Some?
    requires IntToString(ParseInt(NumberPart(firstReceipt)).value) == NumberPart(firstReceipt)
    ensures ReceiptNumbers(firstReceipt, count).value[0] == firstReceipt
  {
    ReceiptAt(firstReceipt, count, 0);
  }

  /** str(int(...)) drops leading zeros: a number part such as "0123456789"
      never comes back unchanged. */
  lemma LeadingZerosDropped(firstReceipt: string, count: int)
    requires count >= 1
    requires ParseInt(NumberPart(firstReceipt)).Some?
    requires |NumberPart(firstReceipt)| >= 2 && NumberPart(firstReceipt)[0] == '0'
    ensures ReceiptNumbers(firstReceipt, count).value[0] != firstReceipt
  {
    var n := ParseInt(NumberPart(firstReceipt)).value;
    var letters := Letters(firstReceipt);
    var first := ReceiptNumbers(firstReceipt, count).value[0];
    ReceiptAt(firstReceipt, count, 0);
    assert first == letters + IntToString(n);
    assert first[|letters|..] == IntToString(n);
    assert firstReceipt[|letters|..] == NumberPart(firstReceipt);
  }

  /** A receipt in the documented format XXX0123456789 (three letters, then
      digits with a leading zero) is accepted by int(), and the first derived
      receipt then differs from it. */
  lemma ZeroPaddedReceipt(letters: string, digits: string, count: int)
    requires |letters| == 3 && |digits| >= 2 && digits[0] == '0'
    requires forall i :: 0 <= i < |digits| ==> IsDigit(digits[i])
    requires count >= 1
    ensures ReceiptNumbers(letters + digits, count).Ok?
    ensures ReceiptNumbers(letters + digits, count).value[0] != letters + digits
  {
    var receipt := letters + digits;
    assert Letters(receipt) == letters;
    assert NumberPart(receipt) == digits;
    DigitsParse(digits);
    LeadingZerosDropped(receipt, count);
  }

  /** The for-loop of Get_app_status: for i in range(count) the receipt
      letters + str(first + i) is looked up and its answer appended, in order.
      A negative count gives an empty range. */
  method LookupReceipts(letters: string, first: int, count: int, lookup: string -> string)
    returns (found: seq<string>)
    ensures |found| == if count < 0 then 0 else count
    ensures forall k :: 0 <= k < |found| ==> found[k] == lookup(letters + IntToString(first + k))
  {
    found := [];
    var i := 0;
    while i < count
      invariant 0 <= i && (count >= 0 ==> i <= count) && (count < 0 ==> i == 0)
      invariant |found| == i
      invariant forall k :: 0 <= k < i ==> found[k] == lookup(letters + IntToString(first + k))
    {
      found := found + [lookup(letters + IntToString(first + i))];
      i := i + 1;
    }
  }

  /** Get_app_status(first_receipt_num, num_receipts). The browser round trip
      for one receipt number (open the lookup page, submit the number, read the
      status panel's HTML) is the parameter lookup; num_receipts defaults to 4. */
  method GetAppStatus(lookup: string -> string, firstReceipt: string, numReceipts: int := 4)
    returns (status: Result<seq<string>>)
    ensures status.Ok? <==> ReceiptNumbers(firstReceipt, numReceipts).Ok?
    ensures status.Err? ==> status.error == NotAnInteger
    ensures status.Ok? ==>
      var receipts := ReceiptNumbers(firstReceipt, numReceipts).value;
      && |status.value| == |receipts|
      && forall i :: 0 <= i < |receipts| ==> status.value[i] == lookup(receipts[i])
  {
    var letters := Letters(firstReceipt);
    var parsed := ParseInt(NumberPart(firstReceipt));
    if parsed.None? {
      return Err(NotAnInteger);
    }
    var firstNum := parsed.value;
    var found := LookupReceipts(letters, firstNum, numReceipts, lookup);
    ReceiptsSpelled(firstReceipt, numReceipts, firstNum);
    status := Ok(found);
  }

  /** The script's call Get_app_status(FF) with the default count: when it
      succeeds there is a status for each of the four forms the report prints. */
  method StatusOfFiledForms(lookup: string -> string, firstReceipt: string)
    returns (status: Result<seq<string>>)
    ensures status.Ok? <==> ParseInt(NumberPart(firstReceipt)).Some?
    ensures status.Ok? ==> |status.value| == 4
    ensures status.Ok? ==>
      forall i :: 0 <= i < 4 ==>
        status.value[i]
        == lookup(Letters(firstReceipt) + IntToString(ParseInt(NumberPart(firstReceipt)).value + i))
  {
    status := GetAppStatus(lookup, firstReceipt);
    if status.Ok? {
      ReceiptsSpelled(firstReceipt, 4, ParseInt(NumberPart(firstReceipt)).value);
    }
  }
}
