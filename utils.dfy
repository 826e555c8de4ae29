/** Extension-list normalisation of src/utils.rs. */
module Utils {
  import opened Common
  import opened Text

  /** A leading '.' unless there is one. */
  function Dotted(t: string): (r: string)
    ensures |r| > 0 && r[0] == '.'
    ensures IsTrimmed(t) ==> IsTrimmed(r)
  {
    if StartsWith(t, ".") then t else ['.'] + t
  }

  /** One user extension: trimmed, then given a leading '.' unless it has one. */
  function NormaliseExtension(e: string): (r: string)
    ensures |r| > 0 && r[0] == '.'
    ensures IsTrimmed(r)
  {
    TrimIsTrimmed(e);
    Dotted(Trim(e))
  }

  /** The extensions given on the command line, or none. */
  function UserExtensions(input: Option<seq<string>>): seq<string> {
    match input
    case None => []
    case Some(e) => e
  }

  /** `get_extention_list`: the user extensions, normalised one by one in input order,
      followed when `defaultExtentions` is set by the lines of the built-in list,
      which are taken verbatim. */
  function ExtensionList(input: Option<seq<string>>, defaultExtentions: bool, defaultLines: seq<string>)
    : (r: seq<string>)
    ensures var user := UserExtensions(input);
      && |r| == |user| + (if defaultExtentions then |defaultLines| else 0)
      && (forall i :: 0 <= i < |user| ==> r[i] == NormaliseExtension(user[i]))
      && (defaultExtentions ==> r[|user|..] == defaultLines)
  {
    var user := UserExtensions(input);
    var normalised := seq(|user|, i requires 0 <= i < |user| => NormaliseExtension(user[i]));
    if defaultExtentions then normalised + defaultLines else normalised
  }

  /** `get_extention_list` as written: the normalised user part is collected, then the
      default lines are appended to it in place. */
  method GetExtentionList(input: Option<seq<string>>, defaultExtentions: bool, defaultLines: seq<string>)
    returns (extentions: seq<string>)
    ensures extentions == ExtensionList(input, defaultExtentions, defaultLines)
  {
    var user := UserExtensions(input);
    extentions := seq(|user|, i requires 0 <= i < |user| => NormaliseExtension(user[i]));
    if defaultExtentions {
      extentions := extentions + defaultLines;
    }
  }

  /** The defaults come after the user part: the list with them is the list without
      them followed by the default lines. */
  lemma DefaultsAppended(input: Option<seq<string>>, defaultLines: seq<string>)
    ensures ExtensionList(input, true, defaultLines) == ExtensionList(input, false, defaultLines) + defaultLines
  {
  }

  /** Without user extensions and without the default list the result is empty. */
  lemma NoExtensions(defaultLines: seq<string>)
    ensures ExtensionList(None, false, defaultLines) == []
    ensures ExtensionList(Some([]), false, defaultLines) == []
  {
  }

  /** An empty or all-whitespace entry becomes ".". */
  lemma BlankExtensionIsDot(e: string)
    requires forall k :: 0 <= k < |e| ==> IsWhitespace(e[k])
    ensures NormaliseExtension(e) == "."
  {
    TrimAllWhitespace(e);
  }

  /** A dot is added exactly when the trimmed entry does not start with one. */
  lemma NormaliseAddsDotExactlyWhenMissing(e: string)
    ensures StartsWith(Trim(e), ".") ==> NormaliseExtension(e) == Trim(e)
    ensures !StartsWith(Trim(e), ".") ==> NormaliseExtension(e) == "." + Trim(e)
  {
  }

  /** A trimmed extension that starts with '.' is left as it is. */
  lemma NormalisedIsFixed(r: string)
    requires |r| > 0 && r[0] == '.' && IsTrimmed(r)
    ensures NormaliseExtension(r) == r
  {
    TrimOfTrimmed(r);
    DottedKeepsDot(r);
  }

  lemma DottedKeepsDot(t: string)
    requires |t| > 0 && t[0] == '.'
    ensures Dotted(t) == t
  {
    assert t[..1] == ".";
  }

  /** Normalising a normalised extension changes nothing. */
  lemma NormaliseIdempotent(e: string)
    ensures NormaliseExtension(NormaliseExtension(e)) == NormaliseExtension(e)
  {
    NormalisedIsFixed(NormaliseExtension(e));
  }

  /** Running the user part of a result through `get_extention_list` again gives it back. */
  lemma ExtensionListIdempotent(input: Option<seq<string>>, defaultLines: seq<string>)
    ensures var once := ExtensionList(input, false, defaultLines);
      ExtensionList(Some(once), false, defaultLines) == once
  {
    var once := ExtensionList(input, false, defaultLines);
    var twice := ExtensionList(Some(once), false, defaultLines);
    forall i | 0 <= i < |once| ensures twice[i] == once[i] {
      NormaliseIdempotent(UserExtensions(input)[i]);
    }
  }
}
