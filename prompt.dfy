/** The confirmation prompt shared by the rename and metadata runs. */
module Prompt {
  import opened Text

  /** `answer.strip().lower() in {"y", "yes"}`. */
  function Confirmed(answer: string): (b: bool)
    ensures b <==> EqualIgnoringCase(Strip(answer), "y") || EqualIgnoringCase(Strip(answer), "yes")
  {
    var a := Strip(answer);
    LowerMatches(a, "y");
    LowerMatches(a, "yes");
    Lower(a) == "y" || Lower(a) == "yes"
  }

  /** Blanks and line breaks around the answer do not matter. */
  lemma ConfirmedIgnoresPadding(before: string, answer: string, after: string)
    requires AllSpace(before) && AllSpace(after)
    ensures Confirmed(before + answer + after) == Confirmed(answer)
  {
    StripSpaceSuffix(before + answer, after);
    StripSpacePrefix(before, answer);
  }

  /** Just pressing Enter (the `[y/N]` default) declines. */
  lemma BlankAnswerDeclines(answer: string)
    requires AllSpace(answer)
    ensures !Confirmed(answer)
  {
    StripSpec(answer);
  }
}
