/**
 * The link dialog of an idea: the URL normaliser that adds a default `https://`,
 * and the dialog's field, which is reset when the dialog opens and saved on submit.
 */
module AddUrlDialog {
  import opened Wrappers
  import opened Text

  /** ASCII case folding, as a case-insensitive regular expression without the `u` flag applies it. */
  function LowerAscii(c: char): char {
    if 'A' <= c <= 'Z' then (c as int + 32) as char else c
  }

  /** `s` begins with the lower-case `prefix`, letters compared case-insensitively. */
  predicate StartsWithIgnoringCase(s: string, prefix: string) {
    |prefix| <= |s| && forall i | 0 <= i < |prefix| :: LowerAscii(s[i]) == prefix[i]
  }

  /** The test `/^https?:\/\//i`. */
  predicate HasProtocol(s: string) {
    StartsWithIgnoringCase(s, "http://") || StartsWithIgnoringCase(s, "https://")
  }

  /**
   * `formatUrl`: a blank input is returned as it is (untrimmed); an input that starts
   * with a protocol is trimmed; anything else is trimmed and given `https://`.
   * The protocol test looks at the untrimmed input.
   */
  function FormatUrl(url: string): string {
    if IsBlank(url) then url
    else if HasProtocol(url) then Trim(url)
    else "https://" + Trim(url)
  }

  lemma HasProtocolTrim(s: string)
    requires HasProtocol(s)
    ensures HasProtocol(Trim(s))
  {
    var k := if StartsWithIgnoringCase(s, "https://") then 8 else 7;
    assert LowerAscii(s[0]) == 'h' && LowerAscii(s[k - 1]) == '/';
    TrimKeepsPrefix(s, k);
    var r := Trim(s);
    assert forall i | 0 <= i < k :: r[i] == r[..k][i] == s[..k][i] == s[i];
  }

  /**
   * What the normaliser produces: a blank input unchanged, otherwise the trimmed input
   * with a protocol; the trimmed input is kept as it is exactly when it already had one.
   */
  lemma {:induction false} FormatUrlResult(url: string)
    ensures IsBlank(url) ==> FormatUrl(url) == url
    ensures !IsBlank(url) ==>
      HasProtocol(FormatUrl(url)) && Trimmed(FormatUrl(url)) && FormatUrl(url) != []
    ensures !IsBlank(url) ==> (FormatUrl(url) == Trim(url) <==> HasProtocol(url))
    ensures !IsBlank(url) && !HasProtocol(url) ==> FormatUrl(url) == "https://" + Trim(url)
  {
    if !IsBlank(url) {
      if HasProtocol(url) {
        HasProtocolTrim(url);
      } else {
        WithDefaultProtocol(Trim(url));
      }
    }
  }

  /** A non-empty trimmed text with `https://` in front has a protocol and is still trimmed. */
  lemma WithDefaultProtocol(t: string)
    requires t != [] && Trimmed(t)
    ensures HasProtocol("https://" + t) && Trimmed("https://" + t) && "https://" + t != t
  {
    var r := "https://" + t;
    assert |r| == |t| + 8;
    assert r[|r| - 1] == t[|t| - 1];
    assert StartsWithIgnoringCase(r, "https://") by {
      forall i | 0 <= i < 8 ensures LowerAscii(r[i]) == "https://"[i] {
        assert r[i] == "https://"[i];
      }
    }
  }

  /** Normalising a normalised URL changes nothing. */
  lemma {:induction false} FormatUrlIdempotent(url: string)
    ensures FormatUrl(FormatUrl(url)) == FormatUrl(url)
  {
    FormatUrlResult(url);
    var r := FormatUrl(url);
    if !IsBlank(url) {
      assert !IsSpace(r[0]);
      TrimOfTrimmed(r);
    }
  }

  /**
   * Leading whitespace hides the protocol from the test, so a link typed with a space
   * before `https://` gets a second `https://`.
   */
  lemma {:induction false} LeadingSpaceDoublesProtocol(w: string, link: string)
    requires w != [] && IsBlank(w)
    requires link != [] && Trimmed(link) && HasProtocol(link)
    ensures FormatUrl(w + link) == "https://" + link
  {
    var u := w + link;
    assert u[|w|] == link[0] && !IsSpace(u[|w|]);
    assert u[0] == w[0] && IsSpace(u[0]) && LowerAscii(u[0]) != 'h';
    assert u == w + link + [];
    TrimOfPadded(w, link, []);
  }

  /** The dialog's state: whether it is open, the text field, and the URLs handed to `onSave`. */
  class Dialog {
    var open: bool
    var url: string
    var saved: seq<string>

    /** The field starts as `currentUrl || ""`. */
    constructor (isOpen: bool, currentUrl: Option<string>)
      ensures open == isOpen && url == currentUrl.GetOr("") && saved == []
    {
      open := isOpen;
      url := currentUrl.GetOr("");
      saved := [];
    }

    /**
     * The parent sets `open` (reopening, or closing through Cancel) and the effect on
     * `[open, currentUrl]` runs: an open dialog resets its field to the current link, a
     * closed one keeps the edited text. Nothing is saved.
     */
    method OnOpenChange(isOpen: bool, currentUrl: Option<string>)
      modifies this
      ensures open == isOpen
      ensures url == (if isOpen then currentUrl.GetOr("") else old(url))
      ensures saved == old(saved)
    {
      open := isOpen;
      if isOpen {
        url := currentUrl.GetOr("");
      }
    }

    /** Typing in the field. */
    method Edit(text: string)
      modifies this
      ensures url == text && open == old(open) && saved == old(saved)
    {
      url := text;
    }

    /** `handleSubmit`: hands exactly the normalised field to `onSave`, then closes. */
    method Submit()
      modifies this
      ensures saved == old(saved) + [FormatUrl(old(url))]
      ensures !open && url == old(url)
    {
      var formatted := FormatUrl(url);
      saved := saved + [formatted];
      open := false;
    }
  }
}
