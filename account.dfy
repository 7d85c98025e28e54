/**
 * The gift-account section: two collapsible boxes, one per side of the
 * family, each listing accounts with a relationship label and a copy button.
 */
module Account {
  import Text

  /** One account as listed: holder, bank and number. */
  datatype AccountInfo = AccountInfo(name: string, bank: string, accountNumber: string)

  const GroomTitle: string := "신랑 측 계좌번호"
  const BrideTitle: string := "신부 측 계좌번호"

  const Bride: string := "신부"
  const Groom: string := "신랑"
  const Father: string := "아버지"
  const Mother: string := "어머니"

  /**
   * `getRelationship`: position 0 is the bride or the groom, position 1 the
   * father, every other position (negative ones too) the mother.
   */
  function Relationship(index: int, isBride: bool): (r: string)
    ensures r == Bride <==> index == 0 && isBride
    ensures r == Groom <==> index == 0 && !isBride
    ensures r == Father <==> index == 1
    ensures r == Mother <==> index != 0 && index != 1
  {
    if index == 0 then (if isBride then Bride else Groom)
    else if index == 1 then Father
    else Mother
  }

  /** A box belongs to the bride's side when its title contains "신부". */
  function IsBride(title: string): bool {
    Text.Contains(title, Bride)
  }

  /** Of the two titles on the page, the bride's box is recognised as the bride's and the groom's is not. */
  lemma TitlesTellSides()
    ensures IsBride(BrideTitle)
    ensures !IsBride(GroomTitle)
  {
    assert Text.OccursAt(BrideTitle, Bride, 0);
    assert Bride[1] !in GroomTitle;
    Text.MissingCharacter(GroomTitle, Bride, Bride[1]);
  }

  /** What clicking a row's copy button asks for: the text to copy and the name for the confirmation. */
  datatype CopyRequest = CopyRequest(text: string, name: string)

  /** One rendered row: the relationship label, the holder, "bank number", and the copy button's request. */
  datatype Row = Row(relationship: string, name: string, details: string, copy: CopyRequest)

  /** The rows of one box: none while collapsed, otherwise one per account in order. */
  function RenderRows(title: string, accounts: seq<AccountInfo>, expanded: bool): (rows: seq<Row>)
    ensures |rows| == if expanded then |accounts| else 0
    ensures forall i :: 0 <= i < |rows| ==>
              && rows[i].relationship == Relationship(i, IsBride(title))
              && rows[i].name == accounts[i].name
              && rows[i].details == accounts[i].bank + " " + accounts[i].accountNumber
              && rows[i].copy == CopyRequest(accounts[i].accountNumber, accounts[i].name)
  {
    if !expanded then []
    else
      var isBride := IsBride(title);
      seq(|accounts|, i requires 0 <= i < |accounts| =>
        Row(Relationship(i, isBride), accounts[i].name, accounts[i].bank + " " + accounts[i].accountNumber,
            CopyRequest(accounts[i].accountNumber, accounts[i].name)))
  }

  /**
   * In the boxes as titled on the page, the first row is labelled with the
   * bride or the groom, the second with the father and the rest with the mother.
   */
  lemma BoxLabels(accounts: seq<AccountInfo>, i: nat)
    requires i < |accounts|
    ensures RenderRows(BrideTitle, accounts, true)[i].relationship == (if i == 0 then Bride else if i == 1 then Father else Mother)
    ensures RenderRows(GroomTitle, accounts, true)[i].relationship == (if i == 0 then Groom else if i == 1 then Father else Mother)
  {
    TitlesTellSides();
  }

  /** The two boxes' expand flags. */
  class AccountBoxes {
    var expandedGroom: bool
    var expandedBride: bool

    /** Both boxes start expanded. */
    constructor ()
      ensures expandedGroom && expandedBride
    {
      expandedGroom := true;
      expandedBride := true;
    }

    /** A click on the groom's header flips that box only. */
    method ToggleGroom()
      modifies this
      ensures expandedGroom == !old(expandedGroom) && expandedBride == old(expandedBride)
    {
      expandedGroom := !expandedGroom;
    }

    /** A click on the bride's header flips that box only. */
    method ToggleBride()
      modifies this
      ensures expandedBride == !old(expandedBride) && expandedGroom == old(expandedGroom)
    {
      expandedBride := !expandedBride;
    }
  }
}
