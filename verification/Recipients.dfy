/**
  The recipients of a send: which rows are accepted, what is wrong with the others, and a call
  that pays what the review shows.
 */
module Recipients {
  import opened Amounts
  import opened Wrappers
  import CommandLine

  datatype Row = Row(address: string, amount: string)

  datatype Recipient = Recipient(address: string, amount: string, sats: nat)

  datatype AddressReason = AddressRequired | AddressHasSpaces | NotAnAddress

  datatype Problem =
    | NoRecipients
    | BadAddress(index: nat, why: AddressReason)
    | BadAmount(index: nat, reason: Reason)
    | DuplicateAddress(index: nat)

  predicate HasSpace(s: string) {
    exists i :: 0 <= i < |s| && CommandLine.IsSpace(s[i])
  }

  /** accepts stands for the two address patterns. */
  function ValidateAddress(input: string, accepts: string -> bool): Result<string, AddressReason> {
    var a := Trim(input);
    if a == "" then Err(AddressRequired)
    else if HasSpace(a) then Err(AddressHasSpaces)
    else if !accepts(a) then Err(NotAnAddress)
    else Ok(a)
  }

  lemma SpaceFree(s: string, i: nat)
    requires !HasSpace(s) && i < |s|
    ensures !CommandLine.IsSpace(s[i])
  {
  }

  lemma SpaceFreeBare(a: string)
    requires !HasSpace(a)
    ensures Bare(a)
  {
    hide CommandLine.IsSpace, HasSpace;
    if a != "" {
      SpaceFree(a, 0);
      SpaceFree(a, |a| - 1);
    }
  }

  /**
    The address is the text without the white space around it. It is accepted exactly if something
    is left, with no white space inside, that the patterns take; the reasons come in that order.
   */
  lemma AddressExactly(input: string, accepts: string -> bool)
    ensures forall a :: ValidateAddress(input, accepts) == Ok(a) <==>
      a != "" && !HasSpace(a) && accepts(a) && Surrounded(input, a)
    ensures ValidateAddress(input, accepts) == Err(AddressRequired) <==> Blank(input)
    ensures ValidateAddress(input, accepts) == Err(AddressHasSpaces) <==>
      exists a :: HasSpace(a) && Surrounded(input, a)
  {
    hide Trim, HasSpace, CommandLine.IsSpace, Blank, Surrounded;
    forall a
      ensures Trim(input) == a <==> Surrounded(input, a)
    {
      TrimLaw(input, a);
    }
    BlankTrims(input);
    NoSpaceInNothing();
  }

  lemma NoSpaceInNothing()
    ensures !HasSpace("")
  {
  }

  function AddressOf(r: Row, accepts: string -> bool): Result<string, AddressReason> {
    ValidateAddress(r.address, accepts)
  }

  /** A row whose address and amount are both good. */
  predicate GoodRow(r: Row, accepts: string -> bool) {
    AddressOf(r, accepts).Ok? && NormalizeAmount(r.amount).Ok?
  }

  function Clean(r: Row, accepts: string -> bool): Recipient
    requires GoodRow(r, accepts)
  {
    var amount := NormalizeAmount(r.amount).value;
    Recipient(AddressOf(r, accepts).value, amount.value, amount.sats)
  }

  /** Whether an earlier row has the same good address. */
  predicate Repeats(rows: seq<Row>, i: nat, accepts: string -> bool)
    requires i < |rows|
  {
    && AddressOf(rows[i], accepts).Ok?
    && exists j :: 0 <= j < i && AddressOf(rows[j], accepts) == AddressOf(rows[i], accepts)
  }

  function RowProblems(rows: seq<Row>, i: nat, accepts: string -> bool): seq<Problem>
    requires i < |rows|
  {
    (if AddressOf(rows[i], accepts).Err? then [BadAddress(i, AddressOf(rows[i], accepts).error)] else [])
    + (if NormalizeAmount(rows[i].amount).Err? then [BadAmount(i, NormalizeAmount(rows[i].amount).error)] else [])
    + (if Repeats(rows, i, accepts) then [DuplicateAddress(i)] else [])
  }

  function Problems(rows: seq<Row>, n: nat, accepts: string -> bool): seq<Problem>
    requires n <= |rows|
  {
    if n == 0 then [] else Problems(rows, n - 1, accepts) + RowProblems(rows, n - 1, accepts)
  }

  predicate Accepted(rows: seq<Row>, accepts: string -> bool) {
    && rows != []
    && forall i :: 0 <= i < |rows| ==> GoodRow(rows[i], accepts) && !Repeats(rows, i, accepts)
  }

  function CleanAll(rows: seq<Row>, n: nat, accepts: string -> bool): (c: seq<Recipient>)
    requires n <= |rows| && forall i :: 0 <= i < n ==> GoodRow(rows[i], accepts)
    ensures |c| == n
  {
    if n == 0 then [] else CleanAll(rows, n - 1, accepts) + [Clean(rows[n - 1], accepts)]
  }

  lemma {:induction false} NoProblems(rows: seq<Row>, n: nat, accepts: string -> bool)
    requires n <= |rows|
    ensures Problems(rows, n, accepts) == [] <==>
      forall i :: 0 <= i < n ==> GoodRow(rows[i], accepts) && !Repeats(rows, i, accepts)
  {
    hide NormalizeAmount, AddressOf, Repeats;
    if n > 0 {
      NoProblems(rows, n - 1, accepts);
    }
  }

  /** What can be wrong with the first n rows. */
  predicate Wrong(rows: seq<Row>, n: nat, p: Problem, accepts: string -> bool)
    requires n <= |rows|
  {
    match p
    case NoRecipients => false
    case BadAddress(i, why) => i < n && AddressOf(rows[i], accepts) == Err(why)
    case BadAmount(i, reason) => i < n && NormalizeAmount(rows[i].amount) == Err(reason)
    case DuplicateAddress(i) => i < n && Repeats(rows, i, accepts)
  }

  function RowOf(p: Problem): nat { if p.NoRecipients? then 0 else p.index }

  function Rank(p: Problem): nat { if p.BadAddress? then 0 else if p.BadAmount? then 1 else 2 }

  /** By row, and in a row the address before the amount before the repetition. */
  predicate Sooner(p: Problem, q: Problem) { RowOf(p) < RowOf(q) || (RowOf(p) == RowOf(q) && Rank(p) < Rank(q)) }

  predicate InOrder(ps: seq<Problem>) { forall i, j :: 0 <= i < j < |ps| ==> Sooner(ps[i], ps[j]) }

  lemma OneRow(rows: seq<Row>, i: nat, accepts: string -> bool)
    requires i < |rows|
    ensures InOrder(RowProblems(rows, i, accepts))
    ensures forall p :: p in RowProblems(rows, i, accepts) ==> RowOf(p) == i
  {
    hide AddressOf, NormalizeAmount, Repeats;
  }

  lemma OneMore(rows: seq<Row>, n: nat, accepts: string -> bool, p: Problem)
    requires 0 < n <= |rows|
    ensures Wrong(rows, n, p, accepts) <==> Wrong(rows, n - 1, p, accepts) || p in RowProblems(rows, n - 1, accepts)
    ensures Wrong(rows, n - 1, p, accepts) ==> RowOf(p) < n - 1
  {
    hide AddressOf, NormalizeAmount, Repeats;
  }

  /** Reports exactly what is wrong with the first n rows, in order. */
  ghost predicate Lists(ps: seq<Problem>, rows: seq<Row>, n: nat, accepts: string -> bool)
    requires n <= |rows|
  {
    InOrder(ps) && forall p :: p in ps <==> Wrong(rows, n, p, accepts)
  }

  lemma ListsMore(ps: seq<Problem>, rows: seq<Row>, n: nat, accepts: string -> bool)
    requires 0 < n <= |rows| && Lists(ps, rows, n - 1, accepts)
    ensures Lists(ps + RowProblems(rows, n - 1, accepts), rows, n, accepts)
  {
    hide InOrder, RowProblems, Wrong, RowOf;
    var more := RowProblems(rows, n - 1, accepts);
    OneRow(rows, n - 1, accepts);
    forall p: Problem
      ensures p in ps + more <==> Wrong(rows, n, p, accepts)
      ensures p in ps ==> RowOf(p) < n - 1
    {
      OneMore(rows, n, accepts, p);
    }
    ListedSnoc(ps, more, n - 1);
  }

  lemma ListsNone(rows: seq<Row>, accepts: string -> bool)
    ensures Lists(Problems(rows, 0, accepts), rows, 0, accepts)
  {
  }

  /** Everything that is wrong is reported, nothing else, and each thing once, in order. */
  lemma {:induction false} ProblemsListed(rows: seq<Row>, n: nat, accepts: string -> bool)
    requires n <= |rows|
    ensures Lists(Problems(rows, n, accepts), rows, n, accepts)
  {
    hide Lists, RowProblems;
    if n == 0 {
      ListsNone(rows, accepts);
    } else {
      ProblemsListed(rows, n - 1, accepts);
      ListsMore(Problems(rows, n - 1, accepts), rows, n, accepts);
    }
  }

  lemma ListedSnoc(a: seq<Problem>, b: seq<Problem>, n: nat)
    requires InOrder(a) && InOrder(b)
    requires (forall p :: p in a ==> RowOf(p) < n) && (forall p :: p in b ==> RowOf(p) == n)
    ensures InOrder(a + b)
  {
    hide Rank, RowOf;
    forall i, j | 0 <= i < j < |a + b|
      ensures Sooner((a + b)[i], (a + b)[j])
    {
      if i < |a| <= j {
        assert a[i] in a && b[j - |a|] in b;
      }
    }
  }

  lemma {:induction false} CleanAt(rows: seq<Row>, n: nat, accepts: string -> bool, i: nat)
    requires i < n <= |rows| && forall k :: 0 <= k < n ==> GoodRow(rows[k], accepts)
    ensures CleanAll(rows, n, accepts)[i] == Clean(rows[i], accepts)
  {
    hide GoodRow, Clean;
    if i < n - 1 { CleanAt(rows, n - 1, accepts, i); }
  }

  /**
    The recipients of accepted rows, in order: each has the row's address without the white space
    around it and the row's amount, and no address comes twice.
   */
  lemma AcceptedRecipients(rows: seq<Row>, accepts: string -> bool, i: nat)
    requires Accepted(rows, accepts) && i < |rows|
    ensures var cleaned := CleanAll(rows, |rows|, accepts); var r := cleaned[i];
      && accepts(r.address) && !HasSpace(r.address) && Surrounded(rows[i].address, r.address)
      && NormalizeAmount(rows[i].amount) == Ok(Amount(r.amount, r.sats))
      && forall j :: 0 <= j < i ==> cleaned[j].address != r.address
  {
    hide NormalizeAmount, ValidateAddress, CleanAll, HasSpace, Surrounded;
    var cleaned := CleanAll(rows, |rows|, accepts);
    CleanAt(rows, |rows|, accepts, i);
    AddressExactly(rows[i].address, accepts);
    forall j | 0 <= j < i
      ensures cleaned[j].address != cleaned[i].address
    {
      CleanAt(rows, |rows|, accepts, j);
      assert !Repeats(rows, i, accepts);
    }
  }

  /** Check every row; accept exactly non-empty lists of good rows with distinct addresses. */
  method ValidateRecipients(rows: seq<Row>, accepts: string -> bool)
      returns (ok: bool, cleaned: seq<Recipient>, errors: seq<Problem>)
    ensures ok <==> Accepted(rows, accepts)
    ensures ok ==> cleaned == CleanAll(rows, |rows|, accepts) && errors == []
    ensures !ok ==> cleaned == []
    ensures errors == if rows == [] then [NoRecipients] else Problems(rows, |rows|, accepts)
  {
    hide NormalizeAmount, AddressOf;
    if rows == [] {
      return false, [], [NoRecipients];
    }
    cleaned, errors := [], [];
    var seen: map<string, nat> := map[];
    var good := true;
    for i := 0 to |rows|
      invariant errors == Problems(rows, i, accepts)
      invariant good <==> forall k :: 0 <= k < i ==> GoodRow(rows[k], accepts)
      invariant good ==> cleaned == CleanAll(rows, i, accepts)
      invariant forall a :: a in seen <==> exists j :: 0 <= j < i && AddressOf(rows[j], accepts) == Ok(a)
    {
      var addr := AddressOf(rows[i], accepts);
      if addr.Err? { errors := errors + [BadAddress(i, addr.error)]; }
      var amt := NormalizeAmount(rows[i].amount);
      if amt.Err? { errors := errors + [BadAmount(i, amt.error)]; }
      if addr.Ok? {
        if addr.value in seen {
          errors := errors + [DuplicateAddress(i)];
        } else {
          seen := seen[addr.value := i];
        }
      }
      if addr.Ok? && amt.Ok? {
        cleaned := cleaned + [Recipient(addr.value, amt.value.value, amt.value.sats)];
      } else {
        good := false;
      }
    }
    NoProblems(rows, |rows|, accepts);
    ok := errors == [];
    if !ok { cleaned := []; }
  }

  // ------------------------------------------------------------------ the call

  datatype FeeMode = Economical | Conservative

  function FeeModeForRbf(rbf: bool): FeeMode {
    if rbf then Economical else Conservative
  }

  datatype Output = Output(address: string, amount: string)

  /** The two methods a spend may use, with the arguments it sets. */
  datatype Call =
    | SendToAddress(address: string, amount: string, subtractFee: bool, rbf: bool, confTarget: nat, mode: FeeMode)
    | Send(outputs: seq<Output>, confTarget: nat, mode: FeeMode, rbf: bool, subtractFrom: seq<nat>)

  function OutputsOf(recipients: seq<Recipient>): (o: seq<Output>)
    ensures |o| == |recipients|
  {
    seq(|recipients|, i requires 0 <= i < |recipients| => Output(recipients[i].address, recipients[i].amount))
  }

  function BuildSendCall(recipients: seq<Recipient>, confTarget: nat, rbf: bool, subtractFee: bool): Call {
    if |recipients| == 1 then
      SendToAddress(recipients[0].address, recipients[0].amount, subtractFee, rbf, confTarget, FeeModeForRbf(rbf))
    else
      Send(OutputsOf(recipients), confTarget, FeeModeForRbf(rbf), rbf, if subtractFee then seq(|recipients|,
          i => i) else [])
  }

  /** What a call asks the node to pay, in order. */
  function Payments(call: Call): seq<Output> {
    match call
    case SendToAddress(address, amount, _, _, _, _) => [Output(address, amount)]
    case Send(outputs, _, _, _, _) => outputs
  }

  /** The payments, by position, that the fee is taken from. */
  function ChargedTo(call: Call): seq<nat> {
    match call
    case SendToAddress(_, _, subtractFee, _, _, _) => if subtractFee then [0] else []
    case Send(_, _, _, _, subtractFrom) => subtractFrom
  }

  /** The total the node reads from the payments: None if it refuses one of them. */
  function PaidSats(outputs: seq<Output>): Option<nat> {
    if outputs == [] then Some(0)
    else
      var rest, last := PaidSats(outputs[..|outputs| - 1]), NodeAmount(outputs[|outputs| - 1].amount);
      if rest.None? || last.None? then None else Some(rest.value + last.value)
  }

  /** The total shown for review. */
  function ReviewTotal(recipients: seq<Recipient>): nat {
    if recipients == [] then 0 else ReviewTotal(recipients[..|recipients| - 1]) + recipients[|recipients| - 1].sats
  }

  /** The node reads the recipient's satoshis, or refuses the amount if it is not plain. */
  predicate Reads(r: Recipient, plain: bool) {
    NodeAmount(r.amount) == if plain then Some(r.sats) else None
  }

  predicate AllPlain(rows: seq<Row>, n: nat)
    requires n <= |rows|
  {
    forall i :: 0 <= i < n ==> PlainAmount(rows[i].amount)
  }

  lemma CleanReads(r: Row, accepts: string -> bool)
    requires GoodRow(r, accepts)
    ensures Reads(Clean(r, accepts), PlainAmount(r.amount))
  {
    hide NormalizeAmount, AddressOf, NodeAmount, PlainAmount;
    AmountReachesNode(r.amount);
  }

  /** The node reads the total of the first n rows, or refuses them if some amount is not plain. */
  lemma {:induction false} PaidIsTotal(rows: seq<Row>, n: nat, accepts: string -> bool)
    requires n <= |rows| && forall i :: 0 <= i < n ==> GoodRow(rows[i], accepts)
    ensures var cleaned := CleanAll(rows, n, accepts);
      PaidSats(OutputsOf(cleaned)) == if AllPlain(rows, n) then Some(ReviewTotal(cleaned)) else None
  {
    hide NormalizeAmount, AddressOf, NodeAmount, PlainAmount, GoodRow, Clean;
    if n > 0 {
      var cleaned := CleanAll(rows, n, accepts);
      PaidIsTotal(rows, n - 1, accepts);
      CleanReads(rows[n - 1], accepts);
      assert cleaned[..n - 1] == CleanAll(rows, n - 1, accepts);
      assert OutputsOf(cleaned)[..n - 1] == OutputsOf(cleaned[..n - 1]);
      assert AllPlain(rows, n) <==> AllPlain(rows, n - 1) && PlainAmount(rows[n - 1].amount);
    }
  }

  /**
    For accepted recipients the call pays, in order, what the form has cleaned, by either
    method; the node reads exactly the total shown for review if no amount has a leading zero,
    and refuses the call otherwise. The fee is charged to every payment or to none, and the
    options are carried.
   */
  lemma CallPaysReviewTotal(rows: seq<Row>, accepts: string -> bool, confTarget: nat, rbf: bool, subtractFee: bool)
    requires Accepted(rows, accepts)
    ensures var cleaned := CleanAll(rows, |rows|, accepts);
            var call := BuildSendCall(cleaned, confTarget, rbf, subtractFee);
            && (call.SendToAddress? <==> |rows| == 1)
            && Payments(call) == OutputsOf(cleaned)
            && PaidSats(Payments(call)) == (if AllPlain(rows, |rows|) then Some(ReviewTotal(cleaned)) else None)
            && ChargedTo(call) == (if subtractFee then seq(|Payments(call)|, i => i) else [])
            && call.rbf == rbf && call.confTarget == confTarget && call.mode == (if rbf then Economical
                else Conservative)
  {
    hide NormalizeAmount, AddressOf, CleanAll, PaidSats, ReviewTotal, GoodRow, Repeats, AllPlain;
    var cleaned := CleanAll(rows, |rows|, accepts);
    PaidIsTotal(rows, |rows|, accepts);
    if |cleaned| == 1 {
      assert OutputsOf(cleaned) == [Output(cleaned[0].address, cleaned[0].amount)];
      assert seq<nat>(1, i => i) == [0];
    }
  }
}
