/**
 * The two input forms that feed the model: the note editor, which only adds
 * a note when title and content are filled in, and the ingredient query
 * editor, which only appends non-empty text.
 */
module Forms {
  import opened Models
  import opened Text
  import opened ViewModel

  // ---------------------------------------------------------------------
  // Tags typed as comma-separated text

  /**
   * The tags typed as comma-separated text: one tag per non-empty run between
   * commas, each with the whitespace at either end trimmed off.
   */
  function NoteTags(text: string): (tags: seq<string>)
    ensures |tags| == |Split(text, ',')|
    ensures forall i :: 0 <= i < |tags| ==> tags[i] == Trim(Split(text, ',')[i], IsWhitespace)
    ensures forall i :: 0 <= i < |tags| ==> ',' !in tags[i]
    ensures forall i :: 0 <= i < |tags| && tags[i] != [] ==>
      !IsWhitespace(tags[i][0]) && !IsWhitespace(tags[i][|tags[i]| - 1])
  {
    var pieces := Split(text, ',');
    seq(|pieces|, i requires 0 <= i < |pieces| =>
      TrimNoComma(pieces[i]);
      Trim(pieces[i], IsWhitespace))
  }

  /** Trimming a piece cannot bring back a comma it did not have. */
  lemma TrimNoComma(piece: string)
    requires ',' !in piece
    ensures ',' !in Trim(piece, IsWhitespace)
  {
    var r := Trim(piece, IsWhitespace);
    var i := LeadingRun(piece, IsWhitespace);
    forall k | 0 <= k < |r|
      ensures r[k] != ','
    {
      assert r[k] == piece[i + k];
    }
  }

  /** A tag that can be typed back in: non-empty, comma-free, no surrounding whitespace. */
  predicate IsPlainTag(tag: string) {
    tag != [] && ',' !in tag && !IsWhitespace(tag[0]) && !IsWhitespace(tag[|tag| - 1])
  }

  /** Plain tags typed with commas between them come back as the same tags. */
  lemma NoteTagsOfJoined(tags: seq<string>)
    requires forall i :: 0 <= i < |tags| ==> IsPlainTag(tags[i])
    ensures NoteTags(Join(tags, ',')) == tags
  {
    SplitJoin(tags, ',');
    var parsed := NoteTags(Join(tags, ','));
    forall i | 0 <= i < |tags|
      ensures parsed[i] == tags[i]
    {
      PlainTagTrimmed(tags[i]);
    }
  }

  /** A plain tag is its own trimmed form. */
  lemma PlainTagTrimmed(tag: string)
    requires IsPlainTag(tag)
    ensures Trim(tag, IsWhitespace) == tag
  {
    TrimIsSlice(tag, IsWhitespace, 0, |tag|);
    assert tag[0..|tag|] == tag;
  }

  /** The tags of text with a comma in it are the tags of either side, in order. */
  lemma NoteTagsAppend(a: string, b: string)
    ensures NoteTags(a + "," + b) == NoteTags(a) + NoteTags(b)
  {
    SplitAppend(a, b, ',');
    assert a + "," + b == a + [','] + b;
    MappedPiecewise(NoteTags(a + "," + b), NoteTags(a), NoteTags(b),
                     Split(a + "," + b, ','), Split(a, ','), Split(b, ','),
                     (piece: string) => Trim(piece, IsWhitespace));
  }

  /** Mapping `f` piece by piece commutes with concatenating the pieces. */
  lemma MappedPiecewise(whole: seq<string>, left: seq<string>, right: seq<string>,
                         pw: seq<string>, pl: seq<string>, pr: seq<string>, f: string -> string)
    requires pw == pl + pr
    requires |whole| == |pw| && |left| == |pl| && |right| == |pr|
    requires forall i :: 0 <= i < |whole| ==> whole[i] == f(pw[i])
    requires forall i :: 0 <= i < |left| ==> left[i] == f(pl[i])
    requires forall i :: 0 <= i < |right| ==> right[i] == f(pr[i])
    ensures whole == left + right
  {
    forall i | 0 <= i < |whole|
      ensures whole[i] == (left + right)[i]
    {
      if i < |pl| {
        assert pw[i] == pl[i];
      } else {
        assert pw[i] == pr[i - |pl|];
      }
    }
  }

  /** Text without a comma gives one tag, its trimmed form, which may be empty. */
  lemma NoteTagOfPiece(piece: string)
    requires piece != [] && ',' !in piece
    ensures NoteTags(piece) == [Trim(piece, IsWhitespace)]
  {
    SplitWhole(piece, ',');
  }

  /** The text "eggs, milk" gives the tags "eggs" and "milk". */
  lemma NoteTagsOfEggsMilk()
    ensures NoteTags("eggs, milk") == ["eggs", "milk"]
  {
    assert "eggs, milk" == "eggs" + "," + " milk";
    NoteTagsAppend("eggs", " milk");
    EggsTag();
    MilkTag();
  }

  lemma EggsTag()
    ensures NoteTags("eggs") == ["eggs"]
  {
    NoteTagOfPiece("eggs");
    assert IsPlainTag("eggs");
    PlainTagTrimmed("eggs");
  }

  lemma MilkTag()
    ensures NoteTags(" milk") == ["milk"]
  {
    assert IsPlainTag("milk");
    NoteTagIgnoresSpacing(" ", "milk", "");
    assert " " + "milk" + "" == " milk";
  }

  /** Whitespace typed around a single tag does not reach the tag. */
  lemma NoteTagIgnoresSpacing(pre: string, tag: string, post: string)
    requires forall k :: 0 <= k < |pre| ==> IsWhitespace(pre[k])
    requires forall k :: 0 <= k < |post| ==> IsWhitespace(post[k])
    requires IsPlainTag(tag)
    ensures NoteTags(pre + tag + post) == [tag]
  {
    var s := pre + tag + post;
    assert ',' !in pre && ',' !in post;
    forall k | 0 <= k < |s|
      ensures s[k] != ','
    {
      if k < |pre| {
        assert s[k] == pre[k];
      } else if k < |pre| + |tag| {
        assert s[k] == tag[k - |pre|];
      } else {
        assert s[k] == post[k - |pre| - |tag|];
      }
    }
    assert s != [] by {
      assert |s| == |pre| + |tag| + |post|;
    }
    SplitWhole(s, ',');
    TrimIgnoresPadding(pre, tag, post, IsWhitespace);
    PlainTagTrimmed(tag);
  }

  // ---------------------------------------------------------------------
  // NotesView

  /** The note editor's three text fields, bound to the shared view model. */
  class NotesView {
    const viewModel: AppViewModel
    var newNoteTitle: string
    var newNoteContent: string
    var newNoteTags: string

    constructor (viewModel: AppViewModel)
      ensures this.viewModel == viewModel
      ensures newNoteTitle == [] && newNoteContent == [] && newNoteTags == []
    {
      this.viewModel := viewModel;
      newNoteTitle := [];
      newNoteContent := [];
      newNoteTags := [];
    }

    /**
     * The "Add Note" button: with both title and content filled in, add a note
     * with the parsed tags and clear the form; otherwise do nothing.
     */
    method AddNoteTapped(noteId: Uuid, now: Date)
      requires viewModel.Valid()
      modifies this, viewModel
      ensures viewModel.Valid()
      ensures old(newNoteTitle) != [] && old(newNoteContent) != [] ==>
        && viewModel.notes == old(viewModel.notes) + [Note(noteId, old(newNoteTitle), old(newNoteContent), NoteTags(old(newNoteTags)), now)]
        && newNoteTitle == [] && newNoteContent == [] && newNoteTags == []
      ensures old(newNoteTitle) == [] || old(newNoteContent) == [] ==>
        && viewModel.notes == old(viewModel.notes)
        && newNoteTitle == old(newNoteTitle) && newNoteContent == old(newNoteContent) && newNoteTags == old(newNoteTags)
      ensures viewModel.recipes == old(viewModel.recipes) && viewModel.timers == old(viewModel.timers)
      ensures viewModel.badges == old(viewModel.badges) && viewModel.viewedRecipesCount == old(viewModel.viewedRecipesCount)
    {
      if newNoteTitle != [] && newNoteContent != [] {
        var tags := NoteTags(newNoteTags);
        viewModel.AddNote(newNoteTitle, newNoteContent, tags, noteId, now);
        newNoteTitle := [];
        newNoteContent := [];
        newNoteTags := [];
      }
    }
  }

  // ---------------------------------------------------------------------
  // IngredientSearchView

  /** `ingredients.remove(atOffsets:)`: the elements whose positions are not listed, in order. */
  function RemovingOffsets<T>(s: seq<T>, offsets: set<int>): (r: seq<T>)
    ensures |r| <= |s|
    ensures multiset(r) <= multiset(s)
  {
    if s == [] then []
    else
      var r := RemovingOffsets(s[..|s| - 1], offsets) + (if |s| - 1 in offsets then [] else [s[|s| - 1]]);
      InitLast(s);
      r
  }

  /** Every element at a position not listed survives the deletion. */
  lemma {:induction false} RemovingKeepsOthers<T>(s: seq<T>, offsets: set<int>, k: int)
    requires 0 <= k < |s| && k !in offsets
    ensures s[k] in RemovingOffsets(s, offsets)
    decreases |s|
  {
    var init := s[..|s| - 1];
    assert RemovingOffsets(s, offsets) == RemovingOffsets(init, offsets) + (if |s| - 1 in offsets then [] else [s[|s| - 1]]);
    if k < |s| - 1 {
      assert init[k] == s[k];
      RemovingKeepsOthers(init, offsets, k);
    }
  }

  /** Deleting one row removes exactly that element. */
  lemma {:induction false} RemovingOneOffset<T>(s: seq<T>, i: int)
    requires 0 <= i < |s|
    ensures RemovingOffsets(s, {i}) == s[..i] + s[i + 1..]
    decreases |s|
  {
    if i < |s| - 1 {
      RemovingOneOffset(s[..|s| - 1], i);
      RemovingBeforeLast(s, i);
    } else {
      NothingRemoved(s[..|s| - 1], {i});
      assert s[..i] == s[..|s| - 1];
    }
  }

  /** The inductive step: the removal happens in the front, the last element stays. */
  lemma RemovingBeforeLast<T>(s: seq<T>, i: int)
    requires 0 <= i < |s| - 1
    requires RemovingOffsets(s[..|s| - 1], {i}) == s[..|s| - 1][..i] + s[..|s| - 1][i + 1..]
    ensures RemovingOffsets(s, {i}) == s[..i] + s[i + 1..]
  {
    var init := s[..|s| - 1];
    PrefixOfInit(s, i);
    DropThenAppendLast(s, i + 1);
    Reassociate(RemovingOffsets(s, {i}), init[..i], init[i + 1..], s[|s| - 1], s[..i], s[i + 1..]);
  }

  lemma Reassociate<T>(r: seq<T>, front: seq<T>, back: seq<T>, last: T, a: seq<T>, b: seq<T>)
    requires r == (front + back) + [last]
    requires front == a && back + [last] == b
    ensures r == a + b
  {
  }

  lemma PrefixOfInit<T>(s: seq<T>, i: int)
    requires 0 <= i < |s|
    ensures s[..|s| - 1][..i] == s[..i]
  {
  }

  /** A non-empty sequence is its front followed by its last element. */
  lemma InitLast<T>(s: seq<T>)
    requires s != []
    ensures s == s[..|s| - 1] + [s[|s| - 1]]
  {
  }

  lemma DropThenAppendLast<T>(s: seq<T>, i: int)
    requires 0 <= i < |s|
    ensures s[..|s| - 1][i..] + [s[|s| - 1]] == s[i..]
  {
    assert s[i..] == s[i..|s| - 1] + [s[|s| - 1]];
  }

  /** Offsets beyond the end remove nothing. */
  lemma {:induction false} NothingRemoved<T>(s: seq<T>, offsets: set<int>)
    requires forall k :: k in offsets ==> k < 0 || k >= |s|
    ensures RemovingOffsets(s, offsets) == s
    decreases |s|
  {
    if s != [] {
      var init := s[..|s| - 1];
      assert |s| - 1 !in offsets;
      assert RemovingOffsets(s, offsets) == RemovingOffsets(init, offsets) + [s[|s| - 1]];
      NothingRemoved(init, offsets);
      InitLast(s);
    }
  }

  /** The ingredient query editor: the query list it edits and the text field. */
  class IngredientSearchView {
    var ingredients: seq<string>
    var newIngredient: string

    constructor (ingredients: seq<string>)
      ensures this.ingredients == ingredients && newIngredient == []
    {
      this.ingredients := ingredients;
      newIngredient := [];
    }

    /** The "Add Ingredient" button: append the typed text, if any, and clear the field. */
    method AddIngredientTapped()
      modifies this
      ensures old(newIngredient) != [] ==> ingredients == old(ingredients) + [old(newIngredient)] && newIngredient == []
      ensures old(newIngredient) == [] ==> ingredients == old(ingredients) && newIngredient == []
    {
      if newIngredient != [] {
        ingredients := ingredients + [newIngredient];
        newIngredient := [];
      }
    }

    /** Swipe-to-delete on the list. */
    method Delete(offsets: set<int>)
      modifies this
      ensures ingredients == RemovingOffsets(old(ingredients), offsets)
      ensures newIngredient == old(newIngredient)
    {
      ingredients := RemovingOffsets(ingredients, offsets);
    }
  }
}
