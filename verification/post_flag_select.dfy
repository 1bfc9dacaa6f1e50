/** The flag picker (src/components/PostFlagSelect.tsx): five buttons, one
    per post flag; clicking the current flag clears it. */
module PostFlagSelect {
  import opened Wrappers
  import opened ForumSchema

  datatype FlagOption = FlagOption(value: PostFlag, caption: string, color: string)

  const Flags: seq<FlagOption> := [
    FlagOption(TechQuestion, "Tech Question", "bg-blue-100 text-blue-800 dark:bg-blue-900 dark:text-blue-200"),
    FlagOption(Framework, "Framework", "bg-purple-100 text-purple-800 dark:bg-purple-900 dark:text-purple-200"),
    FlagOption(Frontend, "Frontend", "bg-green-100 text-green-800 dark:bg-green-900 dark:text-green-200"),
    FlagOption(Backend, "Backend", "bg-yellow-100 text-yellow-800 dark:bg-yellow-900 dark:text-yellow-200"),
    FlagOption(Technology, "Technology", "bg-red-100 text-red-800 dark:bg-red-900 dark:text-red-200")
  ]

  /** The value `onChange` receives when button `i` is clicked: none when
      it is the current flag, else that button's flag. */
  function Click(current: Option<PostFlag>, i: nat): (r: Option<PostFlag>)
    requires i < |Flags|
    ensures current == Some(Flags[i].value) ==> r.None?
    ensures current != Some(Flags[i].value) ==> r == Some(Flags[i].value)
    ensures r.None? || exists j :: 0 <= j < |Flags| && Flags[j].value == r.value
  {
    if current == Some(Flags[i].value) then None else Some(Flags[i].value)
  }

  /** Button `i` shows its colour exactly when its flag is the current one. */
  predicate Highlighted(current: Option<PostFlag>, i: nat)
    requires i < |Flags|
  {
    current == Some(Flags[i].value)
  }

  /** The buttons list every flag exactly once, with distinct stored
      values. */
  lemma FlagsAreExactlyThePostFlags(f: PostFlag)
    ensures exists i :: 0 <= i < |Flags| && Flags[i].value == f
    ensures forall i, j :: 0 <= i < j < |Flags| ==> Flags[i].value != Flags[j].value
    ensures forall i, j :: 0 <= i < j < |Flags| ==> FlagValue(Flags[i].value) != FlagValue(Flags[j].value)
  {
    match f
    case TechQuestion => assert Flags[0].value == f;
    case Framework => assert Flags[1].value == f;
    case Frontend => assert Flags[2].value == f;
    case Backend => assert Flags[3].value == f;
    case Technology => assert Flags[4].value == f;
  }

  /** At most one button is highlighted, and one is whenever a flag is
      set. */
  lemma OneHighlight(current: Option<PostFlag>)
    ensures forall i, j :: 0 <= i < |Flags| && 0 <= j < |Flags| && Highlighted(current, i) && Highlighted(current, j) ==> i == j
    ensures current.Some? ==> exists i :: 0 <= i < |Flags| && Highlighted(current, i)
  {
    FlagsAreExactlyThePostFlags(if current.Some? then current.value else TechQuestion);
    if current.Some? {
      var i :| 0 <= i < |Flags| && Flags[i].value == current.value;
      assert Highlighted(current, i);
    }
  }

  /** With no flag or this button's flag selected, two clicks on the
      button restore the selection. */
  lemma ClickTwice(current: Option<PostFlag>, i: nat)
    requires i < |Flags|
    requires current.None? || current == Some(Flags[i].value)
    ensures Click(Click(current, i), i) == current
  {
  }

  /** With another flag selected, two clicks on a button do not restore
      it: the first selects the button's flag and the second clears it. */
  lemma ClickTwiceOnOther(current: Option<PostFlag>, i: nat)
    requires i < |Flags|
    requires current.Some? && current.value != Flags[i].value
    ensures Click(current, i) == Some(Flags[i].value)
    ensures Click(Click(current, i), i) == None
  {
  }
}
