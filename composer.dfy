/** The post composer sheet: whether it is open, the draft text and the
    attached image URL, and the handlers that change them. */
module Composer {
  import opened Options

  /** The characters `String.prototype.trim` strips: the ECMAScript WhiteSpace
      code points (tab, vertical tab, form feed, space, no-break space, the
      byte order mark and the Zs space separators) and the LineTerminators. */
  predicate IsTrimmable(c: char) {
    c == '\t' || c == '\n' || c == '\U{000B}' || c == '\U{000C}' || c == '\r' ||
    c == ' ' || c == '\U{00A0}' || c == '\U{1680}' ||
    ('\U{2000}' <= c <= '\U{200A}') ||
    c == '\U{2028}' || c == '\U{2029}' || c == '\U{202F}' || c == '\U{205F}' ||
    c == '\U{3000}' || c == '\U{FEFF}'
  }

  /** A text made only of trimmable characters, the empty text included. */
  predicate Blank(s: string) {
    forall i :: 0 <= i < |s| ==> IsTrimmable(s[i])
  }

  /** Drops the leading trimmable characters: the result is the suffix of `s`
      that starts at its first other character. */
  function TrimStart(s: string): (r: string)
    ensures |r| <= |s| && r == s[|s| - |r|..]
    ensures forall i :: 0 <= i < |s| - |r| ==> IsTrimmable(s[i])
    ensures r != [] ==> !IsTrimmable(r[0])
  {
    if s != [] && IsTrimmable(s[0]) then TrimStart(s[1..]) else s
  }

  /** Drops the trailing trimmable characters: the result is the prefix of `s`
      that ends at its last other character. */
  function TrimEnd(s: string): (r: string)
    ensures |r| <= |s| && r == s[..|r|]
    ensures forall i :: |r| <= i < |s| ==> IsTrimmable(s[i])
    ensures r != [] ==> !IsTrimmable(r[|r| - 1])
    ensures s != [] && !IsTrimmable(s[0]) ==> r != []
  {
    if s != [] && IsTrimmable(s[|s| - 1]) then TrimEnd(s[..|s| - 1]) else s
  }

  /** `s.trim()`. */
  function Trim(s: string): string {
    TrimEnd(TrimStart(s))
  }

  /** Trimming leaves nothing exactly when the text is blank. */
  lemma TrimEmptyIffBlank(s: string)
    ensures Trim(s) == "" <==> Blank(s)
  {
  }

  /** The trimmed text neither starts nor ends with a trimmable character,
      so trimming twice is trimming once. */
  lemma TrimIdempotent(s: string)
    ensures Trim(s) != [] ==> !IsTrimmable(Trim(s)[0]) && !IsTrimmable(Trim(s)[|Trim(s)| - 1])
    ensures Trim(Trim(s)) == Trim(s)
  {
  }

  /** The arguments of one `onPost(content, image)` call; `image` is absent
      when the draft had no image. */
  datatype Post = Post(content: string, image: Option<string>)

  class CreatePost {
    var isOpen: bool
    var content: string
    /** The attached image URL; '' means none. */
    var image: string

    /** A new composer is closed and empty. */
    constructor ()
      ensures !isOpen && content == "" && image == ""
    {
      isOpen := false;
      content := "";
      image := "";
    }

    /** The floating plus button. */
    method Open()
      modifies this
      ensures isOpen && content == old(content) && image == old(image)
    {
      isOpen := true;
    }

    /** The close button: the draft survives for the next opening. */
    method Close()
      modifies this
      ensures !isOpen && content == old(content) && image == old(image)
    {
      isOpen := false;
    }

    /** Typing in the text area. */
    method EditContent(text: string)
      modifies this
      ensures content == text && isOpen == old(isOpen) && image == old(image)
    {
      content := text;
    }

    /** "Add Photo": `url` is what the prompt returned (None when cancelled);
        only a non-empty answer replaces the image. */
    method AddPhoto(url: Option<string>)
      modifies this
      ensures url.Some? && url.value != "" ==> image == url.value
      ensures url.None? || url.value == "" ==> image == old(image)
      ensures isOpen == old(isOpen) && content == old(content)
    {
      if Truthy(url) {
        image := url.value;
      }
    }

    /** The remove button on the image preview. */
    method RemoveImage()
      modifies this
      ensures image == "" && isOpen == old(isOpen) && content == old(content)
    {
      image := "";
    }

    /** `disabled={!content.trim()}` on the Post button. */
    function SubmitDisabled(): (disabled: bool)
      reads this
      ensures disabled <==> Blank(content)
    {
      TrimEmptyIffBlank(content);
      Trim(content) == ""
    }

    /** `handleSubmit`: a blank draft is refused and nothing changes; otherwise
        `onPost` is called once, returned here as `posted`, and the sheet is
        closed and cleared. */
    method Submit() returns (posted: Option<Post>)
      modifies this
      ensures posted.None? <==> old(SubmitDisabled())
      ensures Blank(old(content)) ==>
        posted == None && isOpen == old(isOpen) && content == old(content) && image == old(image)
      ensures !Blank(old(content)) ==>
        posted == Some(Post(old(content), if old(image) == "" then None else Some(old(image)))) &&
        !isOpen && content == "" && image == ""
    {
      TrimEmptyIffBlank(content);
      if Trim(content) == "" {
        return None;
      }
      posted := Some(Post(content, if image != "" then Some(image) else None));
      content := "";
      image := "";
      isOpen := false;
    }
  }
}
