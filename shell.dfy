/** The one piece of the console front end (Program.cs) that carries logic:
    the normalisation of what the user types for a priority or a status. */
module Shell {
  import opened Text
  import opened Results
  import opened TicketRecord

  /** The folded spellings `NormalizeCase` maps to a priority. */
  const PrioritySynonyms: seq<string> := ["low", "medium", "med", "high"]

  /** The folded spellings `NormalizeCase` maps to a status. */
  const StatusSynonyms: seq<string> := ["open", "in progress", "in-progress", "progress", "closed", "close"]

  /** `NormalizeCase`: blank input (a null line included) becomes empty; a
      trimmed input that, lower-cased, is a known spelling becomes the
      canonical priority or status; anything else is returned trimmed, in
      the case it was typed. */
  function NormalizeCase(input: string): string
  {
    if IsBlank(input) then ""
    else match Spelling(FoldCase(Trim(input)))
      case Some(v) => v
      case None => Trim(input)
  }

  /** The chain of comparisons in `NormalizeCase`: the canonical value a
      lower-case spelling stands for, if it is one. */
  function Spelling(s: string): Option<string>
  {
    if s == "low" then Some("Low")
    else if s == "medium" || s == "med" then Some("Medium")
    else if s == "high" then Some("High")
    else if s == "open" then Some("Open")
    else if s == "in progress" || s == "in-progress" || s == "progress" then Some("In Progress")
    else if s == "closed" || s == "close" then Some("Closed")
    else None
  }

  /** A spelling stands for an allowed priority exactly when it is a
      priority spelling, for an allowed status exactly when it is a status
      spelling, and for nothing else. */
  lemma SpellingCases(s: string)
    ensures Spelling(s).Some? ==> Spelling(s).value in AllowedPriorities || Spelling(s).value in AllowedStatuses
    ensures Spelling(s).Some? && Spelling(s).value in AllowedPriorities <==> s in PrioritySynonyms
    ensures Spelling(s).Some? && Spelling(s).value in AllowedStatuses <==> s in StatusSynonyms
  {
  }

  /** What the normalisation can give: nothing for blank input, an allowed
      priority for a priority spelling, an allowed status for a status
      spelling, and otherwise the trimmed input itself. */
  lemma NormalizeCaseCases(input: string)
    ensures IsBlank(input) ==> NormalizeCase(input) == ""
    ensures !IsBlank(input) && FoldCase(Trim(input)) in PrioritySynonyms
            ==> NormalizeCase(input) in AllowedPriorities
    ensures !IsBlank(input) && FoldCase(Trim(input)) in StatusSynonyms
            ==> NormalizeCase(input) in AllowedStatuses
    ensures !IsBlank(input) && FoldCase(Trim(input)) !in PrioritySynonyms + StatusSynonyms
            ==> NormalizeCase(input) == Trim(input)
  {
    SpellingCases(FoldCase(Trim(input)));
  }

  /** Each priority spelling, typed in any case and with any surrounding
      white space, normalises to the priority it stands for. */
  lemma NormalizePrioritySpellings(input: string)
    ensures FoldCase(Trim(input)) == "low" ==> NormalizeCase(input) == "Low"
    ensures FoldCase(Trim(input)) in ["medium", "med"] ==> NormalizeCase(input) == "Medium"
    ensures FoldCase(Trim(input)) == "high" ==> NormalizeCase(input) == "High"
  {
    NormalizeSpelled(input);
  }

  /** Each status spelling, typed in any case and with any surrounding
      white space, normalises to the status it stands for. */
  lemma NormalizeStatusSpellings(input: string)
    ensures FoldCase(Trim(input)) == "open" ==> NormalizeCase(input) == "Open"
    ensures FoldCase(Trim(input)) in ["in progress", "in-progress", "progress"]
            ==> NormalizeCase(input) == "In Progress"
    ensures FoldCase(Trim(input)) in ["closed", "close"] ==> NormalizeCase(input) == "Closed"
  {
    NormalizeSpelled(input);
    var s := FoldCase(Trim(input));
    if s in ["in progress", "in-progress", "progress"] {
      InProgressSpelling(s);
    } else if s in ["closed", "close"] {
      ClosedSpelling(s);
    }
  }

  /** The two spellings of Closed stand for it. */
  lemma ClosedSpelling(s: string)
    requires s in ["closed", "close"]
    ensures Spelling(s) == Some("Closed")
  {
  }

  /** The three spellings of In Progress stand for it. */
  lemma InProgressSpelling(s: string)
    requires s in ["in progress", "in-progress", "progress"]
    ensures Spelling(s) == Some("In Progress")
  {
  }

  /** Input whose trimmed, folded form is a spelling normalises to what
      that spelling stands for. */
  lemma NormalizeSpelled(input: string)
    ensures Spelling(FoldCase(Trim(input))).Some?
            ==> NormalizeCase(input) == Spelling(FoldCase(Trim(input))).value
  {
    TrimEmptyIffBlank(input);
    assert Spelling([]) == None;
  }

  /** The folded form of each allowed value is one of its spellings, and
      stands for that value. */
  lemma FoldedAllowed(v: string)
    ensures v in AllowedPriorities ==> FoldCase(v) in PrioritySynonyms && Spelling(FoldCase(v)) == Some(v)
    ensures v in AllowedStatuses ==> FoldCase(v) in StatusSynonyms && Spelling(FoldCase(v)) == Some(v)
  {
    if v in AllowedPriorities {
      FoldedPriority(v);
    } else if v in AllowedStatuses {
      FoldedStatus(v);
    }
  }

  /** The folded form of each allowed priority is its first spelling. */
  lemma FoldedPriority(v: string)
    requires v in AllowedPriorities
    ensures FoldCase(v) in PrioritySynonyms && Spelling(FoldCase(v)) == Some(v)
  {
    if v == "Low" {
      assert FoldCase(v) == "low";
    } else if v == "Medium" {
      assert FoldCase(v) == "medium";
    } else {
      assert FoldCase(v) == "high";
    }
  }

  /** The folded form of each allowed status is its first spelling. */
  lemma FoldedStatus(v: string)
    requires v in AllowedStatuses
    ensures FoldCase(v) in StatusSynonyms && Spelling(FoldCase(v)) == Some(v)
  {
    if v == "Open" {
      assert FoldCase(v) == "open";
    } else if v == "In Progress" {
      assert FoldCase(v) == "in progress";
    } else {
      assert FoldCase(v) == "closed";
    }
  }

  /** Each allowed value, typed in any case and with any surrounding white
      space, normalises to that value. */
  lemma NormalizeAnyCase(input: string, v: string)
    requires v in AllowedPriorities || v in AllowedStatuses
    requires EqualsIgnoreCase(Trim(input), v)
    ensures NormalizeCase(input) == v
  {
    FoldedAllowed(v);
    assert |Trim(input)| == |FoldCase(Trim(input))| == |FoldCase(v)| == |v| > 0;
    TrimEmptyIffBlank(input);
  }

  /** An allowed value is its own normal form. */
  lemma NormalizeAllowed(v: string)
    requires v in AllowedPriorities || v in AllowedStatuses
    ensures NormalizeCase(v) == v
  {
    AllowedAreTrimmed(v);
    NormalizeAnyCase(v, v);
  }

  /** Normalising twice is normalising once. */
  lemma NormalizeCaseIdempotent(input: string)
    ensures NormalizeCase(NormalizeCase(input)) == NormalizeCase(input)
  {
    var r := NormalizeCase(input);
    var s := FoldCase(Trim(input));
    SpellingCases(s);
    if IsBlank(input) {
      assert IsBlank(r);
    } else if Spelling(s).Some? {
      NormalizeAllowed(r);
    } else {
      TrimIdempotent(input);
      TrimNonBlank(input);
    }
  }

  /** The `Priority` setter accepts a normalised input exactly when the
      input, trimmed and lower-cased, is a priority spelling: input that
      normalises to itself is never an allowed priority, since an allowed
      priority in any case is a spelling. */
  lemma NormalizedPriorityAccepted(input: string)
    ensures Trim(NormalizeCase(input)) in AllowedPriorities <==> FoldCase(Trim(input)) in PrioritySynonyms
  {
    var r, t := NormalizeCase(input), Trim(input);
    var s := FoldCase(t);
    SpellingCases(s);
    TrimEmptyIffBlank(input);
    if IsBlank(input) {
      assert r == "" && Trim(r) == "" && s == "";
    } else if Spelling(s).Some? {
      AllowedAreTrimmed(r);
    } else {
      TrimIdempotent(input);
      FoldedAllowed(t);
    }
  }

  /** The `Status` setter accepts a normalised input exactly when the
      input, trimmed and lower-cased, is a status spelling. */
  lemma NormalizedStatusAccepted(input: string)
    ensures Trim(NormalizeCase(input)) in AllowedStatuses <==> FoldCase(Trim(input)) in StatusSynonyms
  {
    var r, t := NormalizeCase(input), Trim(input);
    var s := FoldCase(t);
    SpellingCases(s);
    TrimEmptyIffBlank(input);
    if IsBlank(input) {
      assert r == "" && Trim(r) == "" && s == "";
    } else if Spelling(s).Some? {
      AllowedAreTrimmed(r);
    } else {
      TrimIdempotent(input);
      FoldedAllowed(t);
    }
  }
}
