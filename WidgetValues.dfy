/** The widget's configuration values and the default validation rule. */
module WidgetValues {
  datatype Values = Values(validationPattern: string, validationMessage: string)

  /** The defaults the configuration resolver falls back to. */
  const ValuesDefault := Values("^ABC-\\d+-DEF$", "Field must match the pattern ABC-<number>-DEF")

  predicate IsDigit(c: char) {
    '0' <= c <= '9'
  }

  /**
   * What the regular expression `^ABC-\d+-DEF$` accepts (no flags, so `^` and
   * `$` anchor the whole value and `\d` is an ASCII digit): "ABC-", one or
   * more digits, "-DEF", and nothing else.
   */
  predicate DefaultPatternTest(value: string) {
    |value| >= 9 && value[..4] == "ABC-" && value[|value| - 4..] == "-DEF"
    && forall k :: 4 <= k < |value| - 4 ==> IsDigit(value[k])
  }

  lemma DefaultPatternExamples()
    ensures DefaultPatternTest("ABC-123-DEF")
    ensures !DefaultPatternTest("xyz")
    ensures !DefaultPatternTest("ABC--DEF")
    ensures !DefaultPatternTest("ABC-12x-DEF")
  {
    var ok := "ABC-123-DEF";
    assert ok[..4] == "ABC-" && ok[|ok| - 4..] == "-DEF";
    assert forall k :: 4 <= k < |ok| - 4 ==> IsDigit(ok[k]);
    var bad := "ABC-12x-DEF";
    assert !IsDigit(bad[6]);
  }
}
