/**
 * The wallet store of lib/state/wallets/index.ts: the list of error
 * messages per wallet extension, the account list with its select
 * options, the active account and the accounts reaction that picks the
 * default account. The connected wallet is kept as its extension name.
 */
module Wallets {
  import opened Common

  /** One error message; the list holds at most one per extension. */
  datatype ErrorMessage = ErrorMessage(extensionName: string, message: string)

  /** An account of the wallet; the name may be missing. */
  datatype Account = Account(address: string, name: Option<string>)

  /** An entry of the account selector. */
  datatype SelectOption = SelectOption(caption: string, value: string)

  /** What setActiveAccount is given: null, an account, or an address to
      look up among the accounts. */
  datatype AccountArg = NullAccount | GivenAccount(account: Account) | AddressOf(address: string)

  // The error list

  /** findIndex by extension name, scanning from k: the first match, or -1. */
  function FindErrorFrom(list: seq<ErrorMessage>, name: string, k: nat): (idx: int)
    requires k <= |list|
    ensures idx == -1 || k <= idx < |list|
    ensures idx >= 0 ==> list[idx].extensionName == name
    ensures forall j :: k <= j < (if idx == -1 then |list| else idx) ==> list[j].extensionName != name
    decreases |list| - k
  {
    if k == |list| then -1
    else if list[k].extensionName == name then k
    else FindErrorFrom(list, name, k + 1)
  }

  function FindError(list: seq<ErrorMessage>, name: string): int {
    FindErrorFrom(list, name, 0)
  }

  /** No two messages of the list are for the same extension. */
  ghost predicate NamesDistinct(list: seq<ErrorMessage>) {
    forall i, j :: 0 <= i < j < |list| ==> list[i].extensionName != list[j].extensionName
  }

  /** The list after setErrorMessageForExtension: err appended when its
      extension has no message yet, else put in place of the first one. */
  function SetErrorIn(list: seq<ErrorMessage>, err: ErrorMessage): (r: seq<ErrorMessage>)
    ensures FindError(list, err.extensionName) == -1 ==> r == list + [err]
    ensures FindError(list, err.extensionName) >= 0 ==> r == list[FindError(list, err.extensionName) := err]
  {
    var idx := FindError(list, err.extensionName);
    if idx == -1 then list + [err]
    else
      var r := Slice(list, 0, idx) + [err] + Slice(list, idx + 1, |list|);
      assert r == list[idx := err] by {
        assert |r| == |list|;
        forall j | 0 <= j < |r|
          ensures r[j] == list[idx := err][j]
        {
          if j > idx {
            assert r[j] == Slice(list, idx + 1, |list|)[j - idx - 1];
          }
        }
      }
      r
  }

  /** After setErrorMessageForExtension the extension's message is err,
      the other messages stay, and the list still holds one message per
      extension. */
  lemma SetErrorFound(list: seq<ErrorMessage>, err: ErrorMessage)
    requires NamesDistinct(list)
    ensures var r := SetErrorIn(list, err);
      && NamesDistinct(r)
      && FindError(r, err.extensionName) >= 0 && r[FindError(r, err.extensionName)] == err
      && (forall e :: e in list && e.extensionName != err.extensionName ==> e in r)
      && (forall e :: e in r ==> e == err || e in list)
  {
    var r := SetErrorIn(list, err);
    var idx := FindError(list, err.extensionName);
    if idx == -1 {
      assert r[|list|] == err;
    } else {
      assert r[idx] == err;
      forall e | e in list && e.extensionName != err.extensionName
        ensures e in r
      {
        var j :| 0 <= j < |list| && list[j] == e;
        assert r[j] == e;
      }
    }
  }

  /** unsetErrorMessage as written: the list before the found index, then
      the list after it. With no match the index is -1, so the first part
      is slice(0, -1), everything but the last message, and the second
      part slice(0), the whole list. */
  function UnsetAsWritten(list: seq<ErrorMessage>, name: string): (r: seq<ErrorMessage>)
    ensures FindError(list, name) >= 0 ==> |r| == |list| - 1
    ensures FindError(list, name) == -1 && |list| > 0 ==> r == list[..|list| - 1] + list
    ensures FindError(list, name) == -1 && |list| == 0 ==> r == []
  {
    var idx := FindError(list, name);
    Slice(list, 0, idx) + Slice(list, idx + 1, |list|)
  }

  /** Unsetting an extension without a message, with two messages of
      other extensions in the list, repeats the first of them. */
  lemma UnsetMissingRepeats()
    ensures var list := [ErrorMessage("polkadot-js", "a"), ErrorMessage("subwallet", "b")];
      && NamesDistinct(list)
      && UnsetAsWritten(list, "talisman") == [list[0]] + list
      && !NamesDistinct(UnsetAsWritten(list, "talisman"))
  {
    var list := [ErrorMessage("polkadot-js", "a"), ErrorMessage("subwallet", "b")];
    assert FindErrorFrom(list, "talisman", 2) == -1;
    assert FindErrorFrom(list, "talisman", 1) == -1;
    assert list[..1] == [list[0]];
    var r := UnsetAsWritten(list, "talisman");
    assert r[0] == r[1];
  }

  /** unsetErrorMessage as intended: the first message of the extension
      removed, and the list as it is when there is none. */
  function Unset(list: seq<ErrorMessage>, name: string): (r: seq<ErrorMessage>)
    ensures FindError(list, name) == -1 ==> r == list
    ensures FindError(list, name) >= 0 ==> |r| == |list| - 1
  {
    var idx := FindError(list, name);
    if idx == -1 then list else Slice(list, 0, idx) + Slice(list, idx + 1, |list|)
  }

  /** Unset leaves no message of the extension, removes exactly the one it
      found and keeps the others in their order. */
  lemma UnsetRemoves(list: seq<ErrorMessage>, name: string)
    requires NamesDistinct(list)
    ensures var r := Unset(list, name);
      && NamesDistinct(r)
      && FindError(r, name) == -1
      && (FindError(list, name) >= 0 ==>
            r == list[..FindError(list, name)] + list[FindError(list, name) + 1..]
            && multiset(r) + multiset{list[FindError(list, name)]} == multiset(list))
  {
    var idx := FindError(list, name);
    if idx >= 0 {
      var r := list[..idx] + list[idx + 1..];
      assert Unset(list, name) == r by {
        SliceWithin(list, 0, idx);
        SliceWithin(list, idx + 1, |list|);
      }
      RemovedMultiset(list, idx);
      RemovedDistinct(list, idx);
      RemovedName(list, idx, name);
    }
  }

  /** Within bounds, slice is the subsequence. */
  lemma SliceWithin<T>(s: seq<T>, b: nat, e: nat)
    requires b <= e <= |s|
    ensures Slice(s, b, e) == s[b..e]
  {
  }

  lemma RemovedMultiset<T>(list: seq<T>, idx: nat)
    requires idx < |list|
    ensures multiset(list[..idx] + list[idx + 1..]) + multiset{list[idx]} == multiset(list)
  {
    assert list == list[..idx] + [list[idx]] + list[idx + 1..];
  }

  /** Removing one entry keeps the extensions apart. */
  lemma RemovedDistinct(list: seq<ErrorMessage>, idx: nat)
    requires idx < |list| && NamesDistinct(list)
    ensures NamesDistinct(list[..idx] + list[idx + 1..])
  {
    var r := list[..idx] + list[idx + 1..];
    RemovedAt(list, idx);
    forall i, j | 0 <= i < j < |r|
      ensures r[i].extensionName != r[j].extensionName
    {
      var i' := if i < idx then i else i + 1;
      var j' := if j < idx then j else j + 1;
      assert r[i] == list[i'] && r[j] == list[j'];
    }
  }

  /** Removing the first entry of an extension from a list with one entry
      per extension leaves none. */
  lemma RemovedName(list: seq<ErrorMessage>, idx: nat, name: string)
    requires idx < |list| && NamesDistinct(list) && list[idx].extensionName == name
    ensures FindError(list[..idx] + list[idx + 1..], name) == -1
  {
    var r := list[..idx] + list[idx + 1..];
    RemovedAt(list, idx);
    forall j | 0 <= j < |r|
      ensures r[j].extensionName != name
    {
      var j' := if j < idx then j else j + 1;
      assert r[j] == list[j'];
    }
    assert FindErrorFrom(r, name, 0) == -1;
  }

  /** The list without the entry at idx: every other entry, shifted down
      past idx. */
  lemma RemovedAt<T>(list: seq<T>, idx: nat)
    requires idx < |list|
    ensures var r := list[..idx] + list[idx + 1..];
      && |r| == |list| - 1
      && (forall j :: 0 <= j < idx ==> r[j] == list[j])
      && (forall j :: idx <= j < |r| ==> r[j] == list[j + 1])
  {
  }

  // Account labels

  /** The decimal digits of n, as a template literal writes it. */
  function DecimalString(n: nat): (s: string)
    ensures |s| >= 1
    ensures forall i :: 0 <= i < |s| ==> '0' <= s[i] <= '9'
    decreases n
  {
    if n < 10 then [('0' as int + n) as char]
    else DecimalString(n / 10) + [('0' as int + n % 10) as char]
  }

  /** The number a string of decimal digits stands for. */
  function DecimalValue(s: string): nat
    decreases |s|
  {
    if |s| == 0 then 0
    else
      var d := s[|s| - 1] as int - '0' as int;
      DecimalValue(s[..|s| - 1]) * 10 + (if 0 <= d <= 9 then d else 0)
  }

  /** Reading back the digits of n gives n. */
  lemma {:induction false} DecimalRoundTrip(n: nat)
    ensures DecimalValue(DecimalString(n)) == n
    decreases n
  {
    var s := DecimalString(n);
    if n >= 10 {
      DecimalRoundTrip(n / 10);
      assert s[..|s| - 1] == DecimalString(n / 10);
    }
  }

  /** The label of account i: its name, or "Account #i" without one. */
  function LabelOf(account: Account, i: nat): string {
    if account.name.Some? then account.name.value else "Account #" + DecimalString(i)
  }

  /** accountSelectOptions: one option per account, in order. */
  function SelectOptions(accounts: seq<Account>): (options: seq<SelectOption>)
    ensures |options| == |accounts|
    ensures forall i :: 0 <= i < |accounts| ==> options[i].value == accounts[i].address
    ensures forall i :: 0 <= i < |accounts| && accounts[i].name.Some? ==> options[i].caption == accounts[i].name.value
    ensures forall i :: 0 <= i < |accounts| && accounts[i].name.None? ==>
      options[i].caption == "Account #" + DecimalString(i)
  {
    seq(|accounts|, i requires 0 <= i < |accounts| => SelectOption(LabelOf(accounts[i], i), accounts[i].address))
  }

  /** Two accounts without names get different labels. */
  lemma UnnamedLabelsDistinct(accounts: seq<Account>, i: nat, j: nat)
    requires i < j < |accounts| && accounts[i].name.None? && accounts[j].name.None?
    ensures SelectOptions(accounts)[i].caption != SelectOptions(accounts)[j].caption
  {
    var prefix := "Account #";
    var a := prefix + DecimalString(i);
    var b := prefix + DecimalString(j);
    if a == b {
      assert a[|prefix|..] == DecimalString(i);
      assert b[|prefix|..] == DecimalString(j);
      DecimalRoundTrip(i);
      DecimalRoundTrip(j);
    }
  }

  // The default account

  /** find by address, scanning from k: the first account with it, or -1. */
  function FindAccountFrom(accounts: seq<Account>, address: string, k: nat): (idx: int)
    requires k <= |accounts|
    ensures idx == -1 || k <= idx < |accounts|
    ensures idx >= 0 ==> accounts[idx].address == address
    ensures forall j :: k <= j < (if idx == -1 then |accounts| else idx) ==> accounts[j].address != address
    decreases |accounts| - k
  {
    if k == |accounts| then -1
    else if accounts[k].address == address then k
    else FindAccountFrom(accounts, address, k + 1)
  }

  function FindAccount(accounts: seq<Account>, address: string): int {
    FindAccountFrom(accounts, address, 0)
  }

  /** The account the accounts reaction makes active: the first with the
      stored address when one is stored (a non-empty string) and found,
      else the first account. */
  function DefaultAccount(accounts: seq<Account>, storedAddress: Option<string>): (account: Account)
    requires |accounts| > 0
    ensures account in accounts
    ensures storedAddress.Some? && storedAddress.value != "" && FindAccount(accounts, storedAddress.value) >= 0 ==>
      account.address == storedAddress.value
    ensures storedAddress.None? || storedAddress.value == "" || FindAccount(accounts, storedAddress.value) == -1 ==>
      account == accounts[0]
  {
    var found := if storedAddress.Some? && storedAddress.value != "" then FindAccount(accounts, storedAddress.value) else -1;
    if found >= 0 then accounts[found] else accounts[0]
  }

  /** The stored address wins over the list order: no account before the
      default one carries it. */
  lemma DefaultIsFirstStored(accounts: seq<Account>, address: string)
    requires address != "" && exists i :: 0 <= i < |accounts| && accounts[i].address == address
    ensures var account := DefaultAccount(accounts, Some(address));
      exists i :: 0 <= i < |accounts| && accounts[i] == account
        && account.address == address
        && forall j :: 0 <= j < i ==> accounts[j].address != address
  {
    var i :| 0 <= i < |accounts| && accounts[i].address == address;
    var k := FindAccount(accounts, address);
    assert k >= 0;
    assert accounts[k] == DefaultAccount(accounts, Some(address));
  }

  // The store

  class WalletStore {
    /** The extension name of the connected wallet, if any. */
    var wallet: Option<string>
    var errorMessages: seq<ErrorMessage>
    var accounts: seq<Account>
    var activeAccount: Option<Account>
    var activeBalance: real
    var connected: bool

    /** The error list holds one message per extension. */
    ghost predicate Valid()
      reads this
    {
      NamesDistinct(errorMessages)
    }

    constructor ()
      ensures Valid()
      ensures wallet.None? && errorMessages == [] && accounts == [] && activeAccount.None?
      ensures activeBalance == 0.0 && !connected
    {
      wallet := None;
      errorMessages := [];
      accounts := [];
      activeAccount := None;
      activeBalance := 0.0;
      connected := false;
    }

    /** faultyConnection: some extension reported an error. */
    function FaultyConnection(): (faulty: bool)
      reads this
      ensures faulty <==> exists e :: e in errorMessages
    {
      assert |errorMessages| > 0 ==> errorMessages[0] in errorMessages;
      |errorMessages| > 0
    }

    /** setErrorMessageForExtension: records the message of the extension
        and returns it. */
    method SetErrorMessageForExtension(extensionName: string, message: string) returns (err: ErrorMessage)
      requires Valid()
      modifies this
      ensures wallet == old(wallet) && accounts == old(accounts) && activeAccount == old(activeAccount)
      ensures activeBalance == old(activeBalance) && connected == old(connected)
      ensures err == ErrorMessage(extensionName, message)
      ensures errorMessages == SetErrorIn(old(errorMessages), err)
      ensures Valid() && FaultyConnection()
    {
      err := ErrorMessage(extensionName, message);
      SetErrorFound(errorMessages, err);
      errorMessages := SetErrorIn(errorMessages, err);
      assert errorMessages[FindError(errorMessages, extensionName)] in errorMessages;
    }

    /** unsetErrorMessage, with the removal of a missing extension being
        the no-op the caller expects. */
    method UnsetErrorMessage(extensionName: string)
      requires Valid()
      modifies this
      ensures wallet == old(wallet) && accounts == old(accounts) && activeAccount == old(activeAccount)
      ensures activeBalance == old(activeBalance) && connected == old(connected)
      ensures errorMessages == Unset(old(errorMessages), extensionName)
      ensures Valid() && FindError(errorMessages, extensionName) == -1
    {
      UnsetRemoves(errorMessages, extensionName);
      errorMessages := Unset(errorMessages, extensionName);
    }

    /** clearErrorMessages. */
    method ClearErrorMessages()
      modifies this
      ensures wallet == old(wallet) && accounts == old(accounts) && activeAccount == old(activeAccount)
      ensures activeBalance == old(activeBalance) && connected == old(connected)
      ensures errorMessages == [] && Valid() && !FaultyConnection()
    {
      errorMessages := [];
    }

    /** accountSelectOptions. */
    function AccountSelectOptions(): (options: seq<SelectOption>)
      reads this
      ensures |options| == |accounts|
      ensures forall i :: 0 <= i < |accounts| ==> options[i].value == accounts[i].address
      ensures forall i :: 0 <= i < |accounts| && accounts[i].name.Some? ==> options[i].caption == accounts[i].name.value
      ensures forall i :: 0 <= i < |accounts| && accounts[i].name.None? ==>
        options[i].caption == "Account #" + DecimalString(i)
    {
      SelectOptions(accounts)
    }

    /** setActiveAccount: null also zeroes the balance; an address is
        looked up among the accounts (undefined when absent). The balance
        of an account arrives later from the chain. */
    method SetActiveAccount(arg: AccountArg)
      modifies this
      ensures wallet == old(wallet) && accounts == old(accounts) && errorMessages == old(errorMessages)
      ensures connected == old(connected)
      ensures arg.NullAccount? ==> activeAccount.None? && activeBalance == 0.0
      ensures arg.GivenAccount? ==> activeAccount == Some(arg.account) && activeBalance == old(activeBalance)
      ensures arg.AddressOf? ==> activeBalance == old(activeBalance)
      ensures arg.AddressOf? && FindAccount(accounts, arg.address) == -1 ==> activeAccount.None?
      ensures arg.AddressOf? && FindAccount(accounts, arg.address) >= 0 ==>
        activeAccount.Some? && activeAccount.value in accounts && activeAccount.value.address == arg.address
    {
      match arg {
        case NullAccount =>
          activeBalance := 0.0;
          activeAccount := None;
        case GivenAccount(account) =>
          activeAccount := Some(account);
        case AddressOf(address) =>
          var idx := FindAccount(accounts, address);
          activeAccount := if idx >= 0 then Some(accounts[idx]) else None;
      }
    }

    /** setAccounts followed by the accounts reaction: a non-empty list
        clears the wallet's error message and activates the default
        account; an empty one activates null. */
    method SetAccounts(newAccounts: seq<Account>, storedAddress: Option<string>)
      requires Valid()
      requires |newAccounts| > 0 ==> wallet.Some?
      modifies this
      ensures Valid()
      ensures wallet == old(wallet) && connected == old(connected) && accounts == newAccounts
      ensures |newAccounts| > 0 ==>
        && errorMessages == Unset(old(errorMessages), wallet.value)
        && activeAccount == Some(DefaultAccount(newAccounts, storedAddress))
        && activeBalance == old(activeBalance)
      ensures |newAccounts| == 0 ==>
        errorMessages == old(errorMessages) && activeAccount.None? && activeBalance == 0.0
    {
      accounts := newAccounts;
      if |newAccounts| > 0 {
        UnsetErrorMessage(wallet.value);
        SetActiveAccount(GivenAccount(DefaultAccount(newAccounts, storedAddress)));
      } else {
        SetActiveAccount(NullAccount);
      }
    }

    /** disconnectWallet: no wallet, no accounts (so no active account and
        a zero balance), not connected. */
    method DisconnectWallet()
      requires Valid()
      modifies this
      ensures Valid() && errorMessages == old(errorMessages)
      ensures wallet.None? && accounts == [] && !connected
      ensures activeAccount.None? && activeBalance == 0.0
    {
      wallet := None;
      SetAccounts([], None);
      connected := false;
    }
  }
}
