/** The registration page: the interest picker and the options it offers
    for each role. */
module RegisterPage {
  import opened Common
  import opened Seqs

  /** The role the page starts with. */
  const DefaultRole := "student"

  const StudentInterests: seq<string> := [
    "React", "Node.js", "Python", "AI/ML", "Java", "Flutter",
    "Data Science", "Cybersecurity", "Cloud Computing"]

  const TutorExpertise: seq<string> := [
    "Web Dev", "Data Structures", "Algorithms", "System Design",
    "DevOps", "Mobile Dev", "Blockchain", "Game Dev", "Cloud"]

  /** The options shown: student interests for "student", expertise for any
      other role. */
  function TechOptions(role: string): (r: seq<string>)
    ensures role == "student" ==> r == StudentInterests
    ensures role != "student" ==> r == TutorExpertise
  {
    if role == "student" then StudentInterests else TutorExpertise
  }

  /** Neither option list repeats an entry, and the page starts on the
      student list. */
  lemma OptionListsDistinct()
    ensures NoDuplicates(StudentInterests) && NoDuplicates(TutorExpertise)
    ensures TechOptions(DefaultRole) == StudentInterests
  {
  }

  function Other(x: string): string -> bool {
    (i: string) => i != x
  }

  /** Clicking an interest: a selected one is removed (every copy), an
      unselected one is appended. */
  function ToggleInterest(selected: seq<string>, x: string): (r: seq<string>)
    ensures x in r <==> x !in selected
    ensures forall y :: y != x ==> (y in r <==> y in selected)
    ensures x !in selected ==> r == selected + [x]
    ensures x in selected ==> |r| < |selected|
  {
    if x in selected then
      var r := Filter(selected, Other(x));
      assert |r| < |selected| by {
        FilterCount(selected, Other(x));
        var k :| 0 <= k < |selected| && selected[k] == x;
        CountBelowLength(selected, Other(x), k);
      }
      r
    else selected + [x]
  }

  /** Removing an interest keeps the others in their order. */
  lemma ToggleKeepsOrder(selected: seq<string>, x: string)
    requires x in selected
    ensures IsSubsequence(ToggleInterest(selected, x), selected)
  {
    FilterIsSubsequence(selected, Other(x));
  }

  /** Toggling an unselected interest twice restores the selection. */
  lemma ToggleTwiceRestores(selected: seq<string>, x: string)
    requires x !in selected
    ensures ToggleInterest(ToggleInterest(selected, x), x) == selected
  {
    FilterAppend(selected, x, Other(x));
    FilterAll(selected, Other(x));
  }

  /** A selection without repeats stays without repeats. */
  lemma ToggleKeepsDistinct(selected: seq<string>, x: string)
    requires NoDuplicates(selected)
    ensures NoDuplicates(ToggleInterest(selected, x))
  {
    if x in selected {
      FilterNoDuplicates(selected, Other(x));
    }
  }

  /** The picker as the page holds it: the chosen role and the selection. */
  datatype Picker = Picker(role: string, selected: seq<string>)

  /** What the visitor can do: press the Student or Mentor switch, or click
      one of the options shown. */
  datatype PickerAction = ChooseRole(role: string) | Click(item: string)

  const InitialPicker := Picker(DefaultRole, [])

  /** The role switch sets "student" or "tutor"; only shown options can be
      clicked. */
  predicate PickOffered(p: Picker, a: PickerAction) {
    match a
    case ChooseRole(role) => role == "student" || role == "tutor"
    case Click(x) => x in TechOptions(p.role)
  }

  /** Switching role keeps the selection; clicking toggles the item. */
  function ApplyPick(p: Picker, a: PickerAction): (r: Picker)
    ensures a.ChooseRole? ==> r.selected == p.selected
  {
    match a
    case ChooseRole(role) => p.(role := role)
    case Click(x) => p.(selected := ToggleInterest(p.selected, x))
  }

  /** A run of actions, or `None` if one of them is not offered. */
  function RunPicker(p: Picker, actions: seq<PickerAction>): Option<Picker>
    decreases |actions|
  {
    if |actions| == 0 then Some(p)
    else if !PickOffered(p, actions[0]) then None
    else RunPicker(ApplyPick(p, actions[0]), actions[1..])
  }

  /** Every selected item is an option of one of the two lists. */
  predicate FromOptions(selected: seq<string>) {
    forall k :: 0 <= k < |selected| ==> selected[k] in StudentInterests + TutorExpertise
  }

  /** Whatever the visitor does, the selection holds only items from the
      two option lists, and never the same item twice. */
  lemma {:induction false} PickerKeepsOptions(p: Picker, actions: seq<PickerAction>)
    requires FromOptions(p.selected) && NoDuplicates(p.selected)
    requires RunPicker(p, actions).Some?
    ensures FromOptions(RunPicker(p, actions).value.selected)
    ensures NoDuplicates(RunPicker(p, actions).value.selected)
    decreases |actions|
  {
    if |actions| > 0 {
      var a := actions[0];
      var q := ApplyPick(p, a);
      if a.Click? {
        ToggleKeepsDistinct(p.selected, a.item);
        assert a.item in StudentInterests + TutorExpertise;
        forall k | 0 <= k < |q.selected|
          ensures q.selected[k] in StudentInterests + TutorExpertise
        {
          var y := q.selected[k];
          assert y in q.selected;
          if y != a.item {
            var j :| 0 <= j < |p.selected| && p.selected[j] == y;
          }
        }
      }
      PickerKeepsOptions(q, actions[1..]);
    }
  }

  /** A student's choice survives a switch to the mentor list, where it is
      not offered: the selection is not cleared when the role changes. */
  lemma ChoiceSurvivesRoleSwitch()
    ensures var r := RunPicker(InitialPicker, [Click("React"), ChooseRole("tutor")]);
      && r.Some? && r.value.selected == ["React"]
      && "React" !in TechOptions(r.value.role)
  {
    var acts := [Click("React"), ChooseRole("tutor")];
    assert acts[1..] == [ChooseRole("tutor")];
    assert acts[1..][1..] == [];
    assert "React" in StudentInterests;
  }
}
