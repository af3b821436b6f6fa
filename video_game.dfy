/**
 * The VideoGame entity: its fields, its setters, the duplicate-free category
 * collection kept by addCategory/removeCategory, and the validation
 * constraints its attributes declare.
 *
 * Related entities (Category, Editor) are identified by their ids: Doctrine's
 * identity map hands out one object per id, so the collection's identity
 * comparisons are comparisons of ids.
 */
module VideoGameEntity {
  import opened Wrappers

  type CategoryId = nat
  type EditorId = nat

  /** A DateTime, kept as the text it was built from; the empty text denotes the moment it was built. */
  datatype Date = Date(text: string)

  /** The persistent fields of a game, everything but its generated id. */
  datatype GameRow = GameRow(
    title: Option<string>,
    releaseDate: Option<Date>,
    description: Option<string>,
    categories: seq<CategoryId>,
    editor: Option<EditorId>,
    coverImage: Option<string>)

  const TITLE_MAX_LENGTH: nat := 255

  // Violation messages, in the order the validator visits the properties.
  const TITLE_REQUIRED := "Le nom du jeu est requis"
  const TITLE_TOO_LONG := "Le nom du jeu ne peut pas dépasser les 255 caractères."
  const RELEASE_DATE_REQUIRED := "La date de sorti du jeu est requis"
  const DESCRIPTION_REQUIRED := "La description du jeu est requis"
  const CATEGORY_REQUIRED := "Au moins une catégorie est requise"
  const EDITOR_REQUIRED := "L'éditeur du jeu est requis"

  /** Assert\NotBlank on a string property: neither null nor the empty string ("0" and blanks pass). */
  predicate NotBlank(s: Option<string>) {
    s.Some? && s.value != ""
  }

  /** What the constraints on the entity require of a game that may be stored. */
  predicate Conforms(g: GameRow) {
    && NotBlank(g.title)
    && |g.title.value| <= TITLE_MAX_LENGTH
    && g.releaseDate.Some?
    && NotBlank(g.description)
    && g.categories != []
    && g.editor.Some?
  }

  /**
   * The constraint messages for a game, in declaration order. The flag says
   * whether Assert\NotBlank on the categories collection can fire.
   */
  function ValidatorViolations(g: GameRow, categoryCheckFires: bool): seq<string> {
    (if !NotBlank(g.title) then [TITLE_REQUIRED] else [])
    + (if g.title.Some? && |g.title.value| > TITLE_MAX_LENGTH then [TITLE_TOO_LONG] else [])
    + (if g.releaseDate.None? then [RELEASE_DATE_REQUIRED] else [])
    + (if !NotBlank(g.description) then [DESCRIPTION_REQUIRED] else [])
    + (if categoryCheckFires && g.categories == [] then [CATEGORY_REQUIRED] else [])
    + (if g.editor.None? then [EDITOR_REQUIRED] else [])
  }

  /**
   * The validator as the attributes run it. Assert\NotBlank on the categories
   * collection never fires: the collection is an object, and PHP's empty() is
   * false for every object, so an empty collection passes.
   */
  function ViolationsAsWritten(g: GameRow): seq<string> {
    ValidatorViolations(g, false)
  }

  /** The validator with the category constraint doing what its message says. */
  function Violations(g: GameRow): (v: seq<string>)
    ensures v == [] <==> Conforms(g)
    ensures g.categories == [] <==> CATEGORY_REQUIRED in v
  {
    ValidatorViolations(g, true)
  }

  /** A game that meets every other constraint but has no category passes the validator as written. */
  lemma EmptyCategoriesPassAsWritten(g: GameRow)
    requires NotBlank(g.title) && |g.title.value| <= TITLE_MAX_LENGTH
    requires g.releaseDate.Some? && NotBlank(g.description) && g.editor.Some?
    requires g.categories == []
    ensures ViolationsAsWritten(g) == []
    ensures Violations(g) == [CATEGORY_REQUIRED] && !Conforms(g)
  {
  }

  predicate NoDuplicates<T(==)>(s: seq<T>) {
    forall i, j :: 0 <= i < j < |s| ==> s[i] != s[j]
  }

  /** addCategory on the collection: append unless already present. */
  function WithCategory(s: seq<CategoryId>, c: CategoryId): seq<CategoryId> {
    if c in s then s else s + [c]
  }

  /** removeCategory on the collection: ArrayCollection::removeElement drops the first occurrence, if any. */
  function WithoutCategory(s: seq<CategoryId>, c: CategoryId): seq<CategoryId> {
    if s == [] then []
    else if s[0] == c then s[1..]
    else [s[0]] + WithoutCategory(s[1..], c)
  }

  /** addCategory: the category ends up present, existing order is kept, and at most one element is appended. */
  lemma WithCategoryFacts(s: seq<CategoryId>, c: CategoryId)
    ensures c in WithCategory(s, c)
    ensures |s| <= |WithCategory(s, c)| <= |s| + 1
    ensures WithCategory(s, c)[..|s|] == s
    ensures c in s <==> WithCategory(s, c) == s
    ensures forall x :: x in WithCategory(s, c) <==> x in s || x == c
    ensures WithCategory(WithCategory(s, c), c) == WithCategory(s, c)
    ensures NoDuplicates(s) ==> NoDuplicates(WithCategory(s, c))
  {
  }

  /** removeCategory of an absent category changes nothing. */
  lemma {:induction false} WithoutAbsentCategory(s: seq<CategoryId>, c: CategoryId)
    requires c !in s
    ensures WithoutCategory(s, c) == s
  {
    if s != [] {
      WithoutAbsentCategory(s[1..], c);
    }
  }

  /** removeCategory cuts exactly the first occurrence out and keeps the rest in order. */
  lemma {:induction false} WithoutCategoryAt(s: seq<CategoryId>, c: CategoryId, i: nat)
    requires i < |s| && s[i] == c && c !in s[..i]
    ensures WithoutCategory(s, c) == s[..i] + s[i + 1..]
  {
    if i > 0 {
      assert s[0] in s[..i];
      assert s[1..][..i - 1] == s[1..i];
      WithoutCategoryAt(s[1..], c, i - 1);
      assert s[..i] == [s[0]] + s[1..][..i - 1];
      assert s[1..][i..] == s[i + 1..];
    }
  }

  /** On a duplicate-free collection removeCategory leaves the category absent and keeps the collection duplicate-free. */
  lemma {:induction false} WithoutCategoryKeepsNoDuplicates(s: seq<CategoryId>, c: CategoryId)
    requires NoDuplicates(s)
    ensures c !in WithoutCategory(s, c)
    ensures NoDuplicates(WithoutCategory(s, c))
    ensures forall x :: x != c ==> (x in WithoutCategory(s, c) <==> x in s)
  {
    if s != [] {
      assert NoDuplicates(s[1..]) by {
        forall i, j | 0 <= i < j < |s[1..]| ensures s[1..][i] != s[1..][j] {
          assert s[1..][i] == s[i + 1] && s[1..][j] == s[j + 1];
        }
      }
      if s[0] == c {
        assert forall k :: 0 <= k < |s[1..]| ==> s[1..][k] == s[k + 1];
      } else {
        WithoutCategoryKeepsNoDuplicates(s[1..], c);
        var t := WithoutCategory(s[1..], c);
        assert s[0] !in s[1..] by {
          forall k | 0 <= k < |s[1..]| ensures s[1..][k] != s[0] {
            assert s[1..][k] == s[k + 1];
          }
        }
        assert s[0] !in t;
        assert WithoutCategory(s, c) == [s[0]] + t;
        forall i, j | 0 <= i < j < |[s[0]] + t| ensures ([s[0]] + t)[i] != ([s[0]] + t)[j] {
          if i > 0 {
            assert ([s[0]] + t)[i] == t[i - 1];
          }
          assert ([s[0]] + t)[j] == t[j - 1];
        }
      }
    }
  }

  /** The entity as Doctrine manages it: fields updated in place by the setters. */
  class VideoGame {
    var id: Option<nat>
    var title: Option<string>
    var releaseDate: Option<Date>
    var description: Option<string>
    var categories: seq<CategoryId>
    var editor: Option<EditorId>
    var coverImage: Option<string>

    /** The persistent fields, as a row. */
    function Row(): GameRow
      reads this
    {
      GameRow(title, releaseDate, description, categories, editor, coverImage)
    }

    /** `new VideoGame()`: an empty category collection, every other field null. */
    constructor ()
      ensures id == None
      ensures Row() == GameRow(None, None, None, [], None, None)
    {
      id, title, releaseDate, description := None, None, None, None;
      categories, editor, coverImage := [], None, None;
    }

    /** The managed entity Doctrine returns when it finds a stored row. */
    constructor Load(id: nat, row: GameRow)
      ensures this.id == Some(id) && Row() == row
    {
      this.id := Some(id);
      title, releaseDate, description := row.title, row.releaseDate, row.description;
      categories, editor, coverImage := row.categories, row.editor, row.coverImage;
    }

    method SetTitle(title: string)
      modifies this
      ensures id == old(id) && Row() == old(Row()).(title := Some(title))
    {
      this.title := Some(title);
    }

    method SetReleaseDate(releaseDate: Date)
      modifies this
      ensures id == old(id) && Row() == old(Row()).(releaseDate := Some(releaseDate))
    {
      this.releaseDate := Some(releaseDate);
    }

    method SetDescription(description: string)
      modifies this
      ensures id == old(id) && Row() == old(Row()).(description := Some(description))
    {
      this.description := Some(description);
    }

    method SetEditor(editor: Option<EditorId>)
      modifies this
      ensures id == old(id) && Row() == old(Row()).(editor := editor)
    {
      this.editor := editor;
    }

    method SetCoverImage(coverImage: Option<string>)
      modifies this
      ensures id == old(id) && Row() == old(Row()).(coverImage := coverImage)
    {
      this.coverImage := coverImage;
    }

    method AddCategory(category: CategoryId)
      modifies this
      ensures id == old(id) && Row() == old(Row()).(categories := WithCategory(old(categories), category))
      ensures category in categories
      ensures NoDuplicates(old(categories)) ==> NoDuplicates(categories)
    {
      if category !in categories {
        categories := categories + [category];
      }
      WithCategoryFacts(old(categories), category);
    }

    method RemoveCategory(category: CategoryId)
      modifies this
      ensures id == old(id) && Row() == old(Row()).(categories := WithoutCategory(old(categories), category))
      ensures NoDuplicates(old(categories)) ==> NoDuplicates(categories) && category !in categories
    {
      if NoDuplicates(categories) {
        WithoutCategoryKeepsNoDuplicates(categories, category);
      }
      categories := WithoutCategory(categories, category);
    }
  }
}
