/**
 * When the search box's dropdown shows (components/SearchBar/hooks/useDropdownVisibility.ts).
 */
module DropdownVisibility {
  import opened Strings
  import opened KeyboardNavigation

  /** `shouldShowDropdown`: an empty or all-blank query, a mention, or a files/branches list. */
  predicate ShouldShowDropdown(query: string, mode: Mode) {
    IsBlank(query) || '@' in query || mode == Files || mode == Branches
  }

  /** The decision spelled out: hidden exactly for a repository list, a non-blank query and no '@'. */
  lemma ShouldShowDropdownMeans(query: string, mode: Mode)
    ensures ShouldShowDropdown(query, mode) <==>
      (forall i :: 0 <= i < |query| ==> IsSpace(query[i])) || '@' in query || mode != Repos
  {
    BlankIffAllSpace(query);
  }

  /**
   * The effect that applies it: the open flag is only recomputed while the user is signed in and
   * the input has focus; otherwise it keeps its value.
   */
  function UpdateOpen(isAuthenticated: bool, inputFocused: bool, query: string, mode: Mode, isOpen: bool): (r: bool)
    ensures !(isAuthenticated && inputFocused) ==> r == isOpen
    ensures isAuthenticated && inputFocused && mode != Repos ==> r
    ensures isAuthenticated && inputFocused && mode == Repos ==>
      (r <==> (forall i :: 0 <= i < |query| ==> IsSpace(query[i])) || '@' in query)
  {
    ShouldShowDropdownMeans(query, mode);
    if isAuthenticated && inputFocused then ShouldShowDropdown(query, mode) else isOpen
  }
}
