/**
 The role-selection panel posted by the `!create_panel` command.

 The configured role options are turned, in order, into buttons whose custom
 id is `"role_" + roleId` and whose label is the option's label; the buttons
 are laid out in action rows of at most five. The embed above the buttons
 carries the configured title and description and a fixed accent colour.
 */
module Panel {
  import CustomId
  import opened Ids

  /** One configured self-assignable role. */
  datatype RoleOption = RoleOption(roleId: RoleId, labelText: string)

  /** The `panel` section of the configuration file. */
  datatype PanelConfig = PanelConfig(title: string, description: string, roles: seq<RoleOption>)

  /** A clickable button; every panel button has the neutral (secondary) style. */
  datatype Button = Button(customId: string, labelText: string)

  /** One action row of buttons. */
  type Row = seq<Button>

  datatype Embed = Embed(title: string, description: string, color: nat)

  /** The platform's limit on buttons per action row. */
  const ButtonsPerRow: nat := 5

  /** The embed's accent colour, 0x00bfff. */
  const AccentColor: nat := 0x00BFFF

  function Min(a: int, b: int): (m: int) {
    if a <= b then a else b
  }

  function PanelEmbed(cfg: PanelConfig): (e: Embed) {
    Embed(cfg.title, cfg.description, AccentColor)
  }

  /** The button rendered for one role option. */
  function ToButton(o: RoleOption): (b: Button)
    ensures CustomId.Decode(b.customId) == o.roleId
    ensures b.labelText == o.labelText
  {
    CustomId.DecodeEncode(o.roleId);
    Button(CustomId.Encode(o.roleId), o.labelText)
  }

  /** The buttons of the options, in the options' order. */
  function Buttons(opts: seq<RoleOption>): (bs: seq<Button>)
    ensures |bs| == |opts|
  {
    seq(|opts|, i requires 0 <= i < |opts| => ToButton(opts[i]))
  }

  /** The buttons of all rows, read row by row. */
  function Flatten(rows: seq<Row>): (bs: seq<Button>) {
    if |rows| == 0 then [] else rows[0] + Flatten(rows[1..])
  }

  /**
   `rows` is a layout of `opts`: read row by row it is exactly the options'
   buttons in order, no row is empty or holds more than five buttons, and
   every row but the last is full.
   */
  predicate IsLayoutOf(opts: seq<RoleOption>, rows: seq<Row>) {
    && Flatten(rows) == Buttons(opts)
    && (forall i :: 0 <= i < |rows| ==> 0 < |rows[i]| <= ButtonsPerRow)
    && (forall i :: 0 <= i < |rows| - 1 ==> |rows[i]| == ButtonsPerRow)
  }

  lemma ButtonsSplit(opts: seq<RoleOption>, n: nat)
    requires n <= |opts|
    ensures Buttons(opts) == Buttons(opts[..n]) + Buttons(opts[n..])
  {
  }

  lemma {:induction false} FlattenSnoc(rows: seq<Row>, row: Row)
    ensures Flatten(rows + [row]) == Flatten(rows) + row
    decreases |rows|
  {
    if |rows| == 0 {
      assert rows + [row] == [row];
    } else {
      assert (rows + [row])[1..] == rows[1..] + [row];
      FlattenSnoc(rows[1..], row);
    }
  }

  /** The panel's rows: consecutive slices of five options, one row each. */
  function Layout(opts: seq<RoleOption>): (rows: seq<Row>)
    ensures IsLayoutOf(opts, rows)
    ensures |rows| == (|opts| + ButtonsPerRow - 1) / ButtonsPerRow
    decreases |opts|
  {
    if |opts| == 0 then []
    else
      var n := Min(ButtonsPerRow, |opts|);
      var rest := Layout(opts[n..]);
      ButtonsSplit(opts, n);
      assert ([Buttons(opts[..n])] + rest)[1..] == rest;
      [Buttons(opts[..n])] + rest
  }

  /**
   The loop of the `!create_panel` handler: start at option 0, take the slice
   of the next five options (the slice is cut short at the end of the list),
   add one button per option to a fresh row, and step on by five.
   */
  method RenderRows(opts: seq<RoleOption>) returns (rows: seq<Row>)
    ensures IsLayoutOf(opts, rows)
    ensures |rows| == (|opts| + ButtonsPerRow - 1) / ButtonsPerRow
  {
    rows := [];
    var i := 0;
    while i < |opts|
      invariant i == ButtonsPerRow * |rows|
      invariant |rows| > 0 ==> ButtonsPerRow * (|rows| - 1) < |opts|
      invariant IsLayoutOf(opts[..Min(i, |opts|)], rows)
      invariant i <= |opts| ==> forall k :: 0 <= k < |rows| ==> |rows[k]| == ButtonsPerRow
      decreases |opts| - i
    {
      var end := Min(i + ButtonsPerRow, |opts|);
      var rowRoles := opts[i..end];
      var row: Row := [];
      for j := 0 to |rowRoles|
        invariant row == Buttons(rowRoles[..j])
      {
        assert Buttons(rowRoles[..j + 1]) == Buttons(rowRoles[..j]) + [ToButton(rowRoles[j])];
        row := row + [ToButton(rowRoles[j])];
      }
      assert rowRoles[..|rowRoles|] == rowRoles;
      FlattenSnoc(rows, row);
      ButtonsSplit(opts[..end], i);
      assert opts[..end][..i] == opts[..i];
      assert opts[..end][i..] == rowRoles;
      rows := rows + [row];
      i := i + ButtonsPerRow;
    }
    assert opts[..Min(i, |opts|)] == opts;
  }

  /** Every option's button sits in exactly the position of its option, however the rows fall. */
  lemma LayoutCarriesOptions(opts: seq<RoleOption>, rows: seq<Row>)
    requires IsLayoutOf(opts, rows)
    ensures |Flatten(rows)| == |opts|
    ensures forall k :: 0 <= k < |opts| ==>
      && Flatten(rows)[k].customId == CustomId.Prefix + opts[k].roleId
      && Flatten(rows)[k].labelText == opts[k].labelText
      && CustomId.Decode(Flatten(rows)[k].customId) == opts[k].roleId
  {
  }

  /** Rows that are all full hold five buttons each. */
  lemma {:induction false} FullRowsLength(rows: seq<Row>)
    requires forall i :: 0 <= i < |rows| ==> |rows[i]| == ButtonsPerRow
    ensures |Flatten(rows)| == ButtonsPerRow * |rows|
    decreases |rows|
  {
    if |rows| > 0 {
      FullRowsLength(rows[1..]);
    }
  }

  /** A layout of N options has ceil(N / 5) rows; in particular none when N = 0. */
  lemma LayoutRowCount(opts: seq<RoleOption>, rows: seq<Row>)
    requires IsLayoutOf(opts, rows)
    ensures |rows| == (|opts| + ButtonsPerRow - 1) / ButtonsPerRow
  {
    if |rows| > 0 {
      var init := rows[..|rows| - 1];
      FlattenSnoc(init, rows[|rows| - 1]);
      assert init + [rows[|rows| - 1]] == rows;
      FullRowsLength(init);
    }
  }

  /** The layout rules leave no freedom: a layout of `opts` is the panel's layout. */
  lemma {:induction false} LayoutUnique(opts: seq<RoleOption>, rows: seq<Row>)
    requires IsLayoutOf(opts, rows)
    ensures rows == Layout(opts)
    decreases |rows|
  {
    if |rows| == 0 {
      assert |opts| == |Buttons(opts)| == 0;
    } else {
      var rest := rows[1..];
      var n := |rows[0]|;
      assert Flatten(rows) == rows[0] + Flatten(rest);
      if |rest| > 0 {
        assert Flatten(rest) == rest[0] + Flatten(rest[1..]);
        assert n == ButtonsPerRow;
      }
      assert n == Min(ButtonsPerRow, |opts|);
      ButtonsSplit(opts, n);
      assert rows[0] == Buttons(opts)[..n] == Buttons(opts[..n]);
      assert Flatten(rest) == Buttons(opts)[n..] == Buttons(opts[n..]);
      assert forall i :: 0 <= i < |rest| ==> rest[i] == rows[i + 1];
      assert IsLayoutOf(opts[n..], rest);
      LayoutUnique(opts[n..], rest);
    }
  }
}
