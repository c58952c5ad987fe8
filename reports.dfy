/** The `{ isValid, errors }` object every `validate()` of the domain returns. */
module Reports {
  import Keyed

  datatype Report = Report(isValid: bool, errors: seq<string>)

  /** The messages of the rules that fail, in the order the rules are checked. */
  function Select(messages: seq<string>, failing: seq<bool>): (r: seq<string>)
    requires |messages| == |failing|
    ensures |r| <= |messages|
  {
    if messages == [] then []
    else (if failing[0] then [messages[0]] else []) + Select(messages[1..], failing[1..])
  }

  /** Only the rules' own messages are reported, and nothing is reported exactly when no
      rule fails. */
  lemma {:induction false} SelectFacts(messages: seq<string>, failing: seq<bool>)
    requires |messages| == |failing|
    ensures forall m :: m in Select(messages, failing) ==> m in messages
    ensures Select(messages, failing) == [] <==> forall i :: 0 <= i < |failing| ==> !failing[i]
  {
    if messages != [] {
      SelectFacts(messages[1..], failing[1..]);
      var rest := Select(messages[1..], failing[1..]);
      assert Select(messages, failing) == (if failing[0] then [messages[0]] else []) + rest;
      assert forall m :: m in rest ==> m in messages by {
        forall m | m in rest ensures m in messages {
          var j :| 0 <= j < |messages[1..]| && messages[1..][j] == m;
          assert messages[j + 1] == m;
        }
      }
      assert forall i :: 1 <= i < |failing| ==> failing[i] == failing[1..][i - 1];
    }
  }

  /** With distinct messages, a rule's message is reported exactly when the rule fails. */
  lemma {:induction false} SelectMember(messages: seq<string>, failing: seq<bool>, i: nat)
    requires |messages| == |failing| && i < |messages|
    requires Keyed.NoDuplicates(messages)
    ensures messages[i] in Select(messages, failing) <==> failing[i]
  {
    if i > 0 {
      assert Keyed.NoDuplicates(messages[1..]) by {
        forall a, b | 0 <= a < b < |messages[1..]| ensures messages[1..][a] != messages[1..][b] {
          assert messages[1..][a] == messages[a + 1] && messages[1..][b] == messages[b + 1];
        }
      }
      SelectMember(messages[1..], failing[1..], i - 1);
      assert messages[0] != messages[i];
    } else {
      assert messages[0] !in messages[1..] by {
        forall j | 0 <= j < |messages[1..]| ensures messages[1..][j] != messages[0] {
          assert messages[1..][j] == messages[j + 1];
        }
      }
      SelectFacts(messages[1..], failing[1..]);
      var rest := Select(messages[1..], failing[1..]);
      assert Select(messages, failing) == (if failing[0] then [messages[0]] else []) + rest;
    }
  }

  /** SelectMember for every rule of a list of distinct messages. */
  lemma SelectEach(messages: seq<string>, failing: seq<bool>)
    requires |messages| == |failing| && Keyed.NoDuplicates(messages)
    ensures forall i :: 0 <= i < |messages| ==> (messages[i] in Select(messages, failing) <==> failing[i])
  {
    forall i | 0 <= i < |messages|
      ensures messages[i] in Select(messages, failing) <==> failing[i]
    {
      SelectMember(messages, failing, i);
    }
  }

  /** Select, unrolled for the rule lists of up to four rules the entities check. */
  lemma SelectUnrolled(messages: seq<string>, failing: seq<bool>)
    requires |messages| == |failing| <= 4
    ensures Select(messages, failing) ==
      (if |failing| > 0 && failing[0] then [messages[0]] else []) +
      (if |failing| > 1 && failing[1] then [messages[1]] else []) +
      (if |failing| > 2 && failing[2] then [messages[2]] else []) +
      (if |failing| > 3 && failing[3] then [messages[3]] else [])
  {
    if |messages| > 0 {
      var m1, f1 := messages[1..], failing[1..];
      assert Select(messages, failing) == (if failing[0] then [messages[0]] else []) + Select(m1, f1);
      SelectUnrolled3(m1, f1);
    }
  }

  lemma SelectUnrolled3(messages: seq<string>, failing: seq<bool>)
    requires |messages| == |failing| <= 3
    ensures Select(messages, failing) ==
      (if |failing| > 0 && failing[0] then [messages[0]] else []) +
      (if |failing| > 1 && failing[1] then [messages[1]] else []) +
      (if |failing| > 2 && failing[2] then [messages[2]] else [])
  {
    if |messages| > 0 {
      var m1, f1 := messages[1..], failing[1..];
      assert Select(messages, failing) == (if failing[0] then [messages[0]] else []) + Select(m1, f1);
      if |m1| > 0 {
        var m2, f2 := m1[1..], f1[1..];
        assert Select(m1, f1) == (if f1[0] then [m1[0]] else []) + Select(m2, f2);
        if |m2| > 0 {
          assert Select(m2, f2) == (if f2[0] then [m2[0]] else []) + Select(m2[1..], f2[1..]);
          assert Select(m2[1..], f2[1..]) == [];
        }
      }
    }
  }

  /** The report built from a list of errors, as every `validate()` returns it. */
  function FromErrors(errors: seq<string>): Report
  {
    Report(|errors| == 0, errors)
  }
}
