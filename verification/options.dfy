/**
 * handle_options: turning the --banks argument, a string of hex digits, into
 * the list of ROM bank numbers.
 */
module BankOptions {
  import opened Wrappers
  import opened VgcTypes

  /** The characters isxdigit accepts. */
  const HexDigits: string := "0123456789ABCDEFabcdef"

  /** The bank list used when --banks is not given: the Master's four sideways RAM banks. */
  const DefaultBanks: string := "4567"

  /** isxdigit: a decimal digit or a letter A..F in either case. */
  predicate IsHexDigit(c: char)
  {
    '0' <= c <= '9' || 'A' <= c <= 'F' || 'a' <= c <= 'f'
  }

  /** IsHexDigit accepts exactly the characters of isxdigit's string. */
  lemma IsHexDigitMembership(c: char)
    ensures IsHexDigit(c) <==> c in HexDigits
  {
    if IsHexDigit(c) {
      var i := if c <= '9' then c as int - '0' as int
        else if c <= 'F' then c as int - 'A' as int + 10
        else c as int - 'a' as int + 16;
      assert HexDigits[i] == c;
    } else {
      forall i | 0 <= i < |HexDigits| ensures HexDigits[i] != c {
        assert IsHexDigit(HexDigits[i]);
      }
    }
  }

  /** The digit '%x' prints for a value 0..15. */
  function LowerDigit(v: BankId): char
  {
    if v < 10 then ('0' as int + v) as char else ('a' as int + v - 10) as char
  }

  /** The digit '%X' prints for a value 0..15. */
  function UpperDigit(v: BankId): char
  {
    if v < 10 then ('0' as int + v) as char else ('A' as int + v - 10) as char
  }

  /** int(c, 16) for one hex digit: the digit's value, in either case. */
  function HexValue(c: char): (v: BankId)
    requires IsHexDigit(c)
    ensures c == LowerDigit(v) || c == UpperDigit(v)
  {
    if '0' <= c <= '9' then c as int - '0' as int
    else if 'a' <= c <= 'f' then c as int - 'a' as int + 10
    else c as int - 'A' as int + 10
  }

  /** Each value 0..15 is read back from its digit, lower or upper case. */
  lemma HexValueRoundTrip(v: BankId)
    ensures IsHexDigit(LowerDigit(v)) && HexValue(LowerDigit(v)) == v
    ensures IsHexDigit(UpperDigit(v)) && HexValue(UpperDigit(v)) == v
  {
  }

  /**
   * What handle_options leaves in options.banks: the value of each character
   * in order, or the error for the first character that is not a hex digit.
   */
  function ParseBanks(text: string): (r: Result<seq<BankId>, Error>)
    ensures r.Success? ==> |r.value| == |text|
    ensures r.Failure? ==> r.error.BankNotHex? && r.error.c in text && !IsHexDigit(r.error.c)
  {
    if text == [] then Success([])
    else if !IsHexDigit(text[0]) then Failure(BankNotHex(text[0]))
    else Prepend([HexValue(text[0])], ParseBanks(text[1..]))
  }

  /**
   * ParseBanks succeeds exactly when every character is a hex digit, and then
   * maps each character to its value; otherwise it names the first character
   * that is not.
   */
  lemma {:induction false} ParseBanksCharacterization(text: string)
    ensures ParseBanks(text).Success? <==> forall k :: 0 <= k < |text| ==> IsHexDigit(text[k])
    ensures ParseBanks(text).Success? ==>
      |ParseBanks(text).value| == |text| &&
      forall k :: 0 <= k < |text| ==> ParseBanks(text).value[k] == HexValue(text[k])
    ensures ParseBanks(text).Failure? ==>
      exists k :: 0 <= k < |text| && ParseBanks(text).error == BankNotHex(text[k]) &&
        !IsHexDigit(text[k]) && forall m :: 0 <= m < k ==> IsHexDigit(text[m])
    decreases |text|
  {
    if text != [] && IsHexDigit(text[0]) {
      var rest := text[1..];
      ParseBanksCharacterization(rest);
      if ParseBanks(rest).Success? {
        var value := ParseBanks(text).value;
        forall k | 0 <= k < |text| ensures IsHexDigit(text[k]) && value[k] == HexValue(text[k]) {
          if k > 0 { assert text[k] == rest[k - 1]; }
        }
      } else {
        var k :| 0 <= k < |rest| && ParseBanks(rest).error == BankNotHex(rest[k]) &&
          !IsHexDigit(rest[k]) && forall m :: 0 <= m < k ==> IsHexDigit(rest[m]);
        assert text[k + 1] == rest[k];
        forall m | 0 <= m < k + 1 ensures IsHexDigit(text[m]) {
          if m > 0 { assert text[m] == rest[m - 1]; }
        }
      }
    }
  }

  /**
   * The duplicate test of handle_options compares a one-character string with
   * the integers already collected, which is never true: a repeated bank is
   * accepted and appears twice.
   */
  lemma DuplicateBankAccepted()
    ensures ParseBanks("44") == Success([4, 4])
  {
    assert IsHexDigit('4') && HexValue('4') == 4;
    assert ParseBanks("") == Success([]);
    assert "4"[0] == '4' && "4"[1..] == "";
    assert [4] + [] == [4];
    assert ParseBanks("4") == Success([4]);
    assert "44"[0] == '4' && "44"[1..] == "4";
    assert [4] + [4] == [4, 4];
  }

  /** Without --banks the tool packs into banks 4, 5, 6 and 7. */
  lemma DefaultBanksParse()
    ensures ParseBanks(DefaultBanks) == Success([4, 5, 6, 7])
  {
    assert IsHexDigit('7') && HexValue('7') == 7;
    assert "7"[0] == '7' && "7"[1..] == "";
    assert [7] + [] == [7];
    assert ParseBanks("7") == Success([7]);
    assert IsHexDigit('6') && HexValue('6') == 6;
    assert "67"[0] == '6' && "67"[1..] == "7";
    assert [6] + [7] == [6, 7];
    assert ParseBanks("67") == Success([6, 7]);
    assert IsHexDigit('5') && HexValue('5') == 5;
    assert "567"[0] == '5' && "567"[1..] == "67";
    assert [5] + [6, 7] == [5, 6, 7];
    assert ParseBanks("567") == Success([5, 6, 7]);
    assert IsHexDigit('4') && HexValue('4') == 4;
    assert DefaultBanks[0] == '4' && DefaultBanks[1..] == "567";
    assert [4] + [5, 6, 7] == [4, 5, 6, 7];
  }

  /** handle_options: one bank number per character, in order. */
  method HandleOptions(text: string) returns (r: Result<seq<BankId>, Error>)
    ensures r == ParseBanks(text)
    ensures r.Success? <==> forall k :: 0 <= k < |text| ==> IsHexDigit(text[k])
    ensures r.Success? ==> |r.value| == |text| && forall k :: 0 <= k < |text| ==> r.value[k] == HexValue(text[k])
  {
    var banks: seq<BankId> := [];
    assert text[0..] == text;
    match ParseBanks(text) {
      case Success(all) => assert [] + all == all;
      case Failure(_) =>
    }
    for i := 0 to |text|
      invariant ParseBanks(text) == Prepend(banks, ParseBanks(text[i..]))
    {
      var bank := text[i];
      assert text[i..][1..] == text[i + 1..];
      if !IsHexDigit(bank) {
        r := Failure(BankNotHex(bank));
        ParseBanksCharacterization(text);
        return;
      }
      // The source's "bank in banks" test compares the character with the
      // integers collected so far; it never holds, so nothing is rejected here.
      assert ParseBanks(text[i..]) == Prepend([HexValue(bank)], ParseBanks(text[i + 1..]));
      PrependTwice(banks, [HexValue(bank)], ParseBanks(text[i + 1..]));
      banks := banks + [HexValue(bank)];
    }
    assert text[|text|..] == [];
    assert banks + [] == banks;
    r := Success(banks);
    ParseBanksCharacterization(text);
  }
}
