/** The three-step resume wizard: navigation between the steps and the
    list fields of its form. */
module Resume {
  const FirstStep := 1
  const LastStep := 3

  /** The step headings, in order. */
  const StepTitles: seq<string> := ["Personal Details", "Education, Skills", "Projects Experience"]

  /** The wizard's buttons: Next is shown while a later step exists, Back on
      every step but the first. */
  datatype Nav = Next | Back

  predicate NavShown(step: int, n: Nav) {
    match n
    case Next => step < LastStep
    case Back => step != FirstStep
  }

  /** Next and Back move by exactly one step. */
  function Move(step: int, n: Nav): (r: int)
    ensures n == Next ==> r == step + 1
    ensures n == Back ==> r == step - 1
  {
    match n
    case Next => step + 1
    case Back => step - 1
  }

  /** The step after pressing the shown buttons in turn, starting at
      `step`; a press of a hidden button cannot happen and ends the run
      where it is. */
  function Press(step: int, presses: seq<Nav>): int
    decreases |presses|
  {
    if |presses| == 0 || !NavShown(step, presses[0]) then step
    else Press(Move(step, presses[0]), presses[1..])
  }

  /** From any step in range, the shown buttons keep the step in 1..3. */
  lemma {:induction false} StepsStayInRange(step: int, presses: seq<Nav>)
    requires FirstStep <= step <= LastStep
    ensures FirstStep <= Press(step, presses) <= LastStep
    decreases |presses|
  {
    if |presses| > 0 && NavShown(step, presses[0]) {
      StepsStayInRange(Move(step, presses[0]), presses[1..]);
    }
  }

  /** The heading shown for a step (`steps[step - 1]`). */
  function StepTitle(step: int): (t: string)
    requires FirstStep <= step <= LastStep
    ensures t == StepTitles[step - FirstStep]
    ensures t != ""
  {
    StepTitles[step - 1]
  }

  /** Every step the wizard can reach from its start has a heading. */
  lemma ReachableStepsHaveTitles(presses: seq<Nav>)
    ensures var s := Press(FirstStep, presses);
      FirstStep <= s <= LastStep && StepTitle(s) in StepTitles
  {
    StepsStayInRange(FirstStep, presses);
  }

  /** `n` presses of Next. */
  function Nexts(n: nat): (r: seq<Nav>)
    ensures |r| == n
    ensures forall k :: 0 <= k < n ==> r[k] == Next
  {
    if n == 0 then [] else [Next] + Nexts(n - 1)
  }

  /** Next pressed `n` times walks `n` steps forward while the last step is
      not passed. */
  lemma {:induction false} NextsWalk(step: int, n: nat)
    requires FirstStep <= step && step + n <= LastStep
    ensures Press(step, Nexts(n)) == step + n
    decreases n
  {
    if n > 0 {
      assert Nexts(n)[1..] == Nexts(n - 1);
      NextsWalk(step + 1, n - 1);
    }
  }

  /** Every step is reachable from the first: step `1 + n` after `n`
      presses of Next. */
  lemma EveryStepReachable()
    ensures forall n: nat :: FirstStep + n <= LastStep ==> Press(FirstStep, Nexts(n)) == FirstStep + n
  {
    forall n: nat | FirstStep + n <= LastStep
      ensures Press(FirstStep, Nexts(n)) == FirstStep + n
    {
      NextsWalk(FirstStep, n);
    }
  }

  /** Back undoes Next: from any step before the last, Next then Back
      returns to it. */
  lemma BackUndoesNext(step: int)
    requires FirstStep <= step < LastStep
    ensures Press(step, [Next, Back]) == step
  {
    assert [Next, Back][1..] == [Back];
    assert [Back][1..] == [];
  }

  /** The two list fields of the form. */
  datatype ListField = TechStack | Certifications

  /** The form: named text inputs and two lists, all empty to start. */
  datatype ResumeForm = ResumeForm(text: map<string, string>, techStack: seq<string>, certifications: seq<string>)

  const TextFields: set<string> := {
    "name", "email", "phone", "linkedin", "github", "summary",
    "education", "institution", "year", "grades",
    "projectTitle", "techUsed", "description", "experience"}

  const InitialForm := ResumeForm(map f | f in TextFields :: "", [], [])

  /** A text input writes its own key. */
  function SetText(f: ResumeForm, name: string, value: string): (r: ResumeForm)
    ensures name in r.text && r.text[name] == value
    ensures forall k :: k in f.text && k != name ==> k in r.text && r.text[k] == f.text[k]
    ensures r.techStack == f.techStack && r.certifications == f.certifications
  {
    f.(text := f.text[name := value])
  }

  /** The form after typing `edits` in turn, each a key and its new value. */
  function TypeAll(f: ResumeForm, edits: seq<(string, string)>): ResumeForm
    decreases |edits|
  {
    if |edits| == 0 then f else TypeAll(SetText(f, edits[0].0, edits[0].1), edits[1..])
  }

  /** The initial form has every text input. */
  lemma InitialFormHasFields()
    ensures forall k :: k in TextFields ==> k in InitialForm.text && InitialForm.text[k] == ""
  {
  }

  /** Edit `i` is the last one that writes its key. */
  predicate LastWriteOf(edits: seq<(string, string)>, i: int) {
    0 <= i < |edits| && forall j :: i < j < |edits| ==> edits[j].0 != edits[i].0
  }

  /** Typing never loses a key and never touches the lists; every key an
      edit wrote holds the value of the last edit to it, and every other
      key keeps its value. */
  lemma {:induction false} TypingKeepsFields(f: ResumeForm, edits: seq<(string, string)>)
    ensures var r := TypeAll(f, edits);
      && (forall k :: k in f.text ==> k in r.text)
      && r.techStack == f.techStack && r.certifications == f.certifications
      && (forall i :: LastWriteOf(edits, i) ==> edits[i].0 in r.text && r.text[edits[i].0] == edits[i].1)
      && (forall k :: k in f.text && (forall j :: 0 <= j < |edits| ==> edits[j].0 != k) ==> r.text[k] == f.text[k])
    decreases |edits|
  {
    if |edits| > 0 {
      var g := SetText(f, edits[0].0, edits[0].1);
      var rest := edits[1..];
      TypingKeepsFields(g, rest);
      var r := TypeAll(f, edits);
      assert r == TypeAll(g, rest);
      forall i | LastWriteOf(edits, i)
        ensures edits[i].0 in r.text && r.text[edits[i].0] == edits[i].1
      {
        if i > 0 {
          assert rest[i - 1] == edits[i];
          assert LastWriteOf(rest, i - 1) by {
            forall j | i - 1 < j < |rest|
              ensures rest[j].0 != rest[i - 1].0
            {
              assert rest[j] == edits[j + 1];
            }
          }
        } else {
          forall j | 0 <= j < |rest|
            ensures rest[j].0 != edits[0].0
          {
            assert rest[j] == edits[j + 1];
          }
        }
      }
      forall k | k in f.text && (forall j :: 0 <= j < |edits| ==> edits[j].0 != k)
        ensures r.text[k] == f.text[k]
      {
        assert edits[0].0 != k;
        forall j | 0 <= j < |rest|
          ensures rest[j].0 != k
        {
          assert rest[j] == edits[j + 1];
        }
      }
    }
  }

  /** Appends `value` to the named list and leaves everything else. */
  function AddToList(f: ResumeForm, field: ListField, value: string): (r: ResumeForm)
    ensures r.text == f.text
    ensures field == TechStack ==>
      && |r.techStack| == |f.techStack| + 1
      && r.techStack[..|f.techStack|] == f.techStack && r.techStack[|f.techStack|] == value
      && r.certifications == f.certifications
    ensures field == Certifications ==>
      && |r.certifications| == |f.certifications| + 1
      && r.certifications[..|f.certifications|] == f.certifications && r.certifications[|f.certifications|] == value
      && r.techStack == f.techStack
  {
    match field
    case TechStack => f.(techStack := f.techStack + [value])
    case Certifications => f.(certifications := f.certifications + [value])
  }

  /** The form after adding `values` to one list in turn. */
  function AddAll(f: ResumeForm, field: ListField, values: seq<string>): ResumeForm
    decreases |values|
  {
    if |values| == 0 then f else AddAll(AddToList(f, field, values[0]), field, values[1..])
  }

  /** Adding values one by one appends them in call order to the named list
      and leaves the texts and the other list alone. */
  lemma {:induction false} AddAllAppends(f: ResumeForm, field: ListField, values: seq<string>)
    ensures var r := AddAll(f, field, values);
      && r.text == f.text
      && (field == TechStack ==> r.techStack == f.techStack + values && r.certifications == f.certifications)
      && (field == Certifications ==> r.certifications == f.certifications + values && r.techStack == f.techStack)
    decreases |values|
  {
    if |values| > 0 {
      var g := AddToList(f, field, values[0]);
      AddAllAppends(g, field, values[1..]);
      assert values == [values[0]] + values[1..];
      match field
      case TechStack =>
        assert g.techStack == f.techStack + [values[0]];
        assert f.techStack + values == g.techStack + values[1..];
      case Certifications =>
        assert g.certifications == f.certifications + [values[0]];
        assert f.certifications + values == g.certifications + values[1..];
    }
  }
}
