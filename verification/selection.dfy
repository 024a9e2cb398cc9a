/**
 * The derived lookups of the content store: the current course, theme and
 * material, each found in the live collection under the level above it.
 */
module Selection {
  import opened Wrappers
  import opened Entities

  /** JavaScript truthiness of a `number | null` id: null and 0 both mean "nothing selected". */
  predicate Truthy(id: Option<int>) {
    id.Some? && id.value != 0
  }

  function CourseId(c: Course): int { c.id }
  function ThemeId(t: Theme): int { t.id }
  function MaterialId(m: Material): int { m.id }

  /** `x` sits at some index of `s`, has id `id`, and no earlier element has that id. */
  ghost predicate IsFirstMatch<T>(s: seq<T>, idOf: T -> int, id: int, x: T) {
    exists i :: 0 <= i < |s| && s[i] == x && idOf(s[i]) == id &&
      forall j :: 0 <= j < i ==> idOf(s[j]) != id
  }

  /** `Array.prototype.find` with an id comparison: the first element whose id matches. */
  function Find<T>(s: seq<T>, idOf: T -> int, id: int): (r: Option<T>)
    ensures r.None? <==> forall i :: 0 <= i < |s| ==> idOf(s[i]) != id
    ensures r.Some? ==> r.value in s && IsFirstMatch(s, idOf, id, r.value)
  {
    if s == [] then None
    else if idOf(s[0]) == id then
      assert IsFirstMatch(s, idOf, id, s[0]) by { assert s[0] == s[0]; }
      Some(s[0])
    else
      var r := Find(s[1..], idOf, id);
      assert forall i :: 1 <= i < |s| ==> s[i] == s[1..][i - 1];
      if r.Some? then
        assert IsFirstMatch(s, idOf, id, r.value) by {
          var k :| 0 <= k < |s[1..]| && s[1..][k] == r.value && idOf(s[1..][k]) == id &&
            forall j :: 0 <= j < k ==> idOf(s[1..][j]) != id;
          assert s[k + 1] == r.value;
          assert forall j :: 1 <= j < k + 1 ==> idOf(s[j]) != id by {
            forall j | 1 <= j < k + 1 ensures idOf(s[j]) != id {
              assert s[j] == s[1..][j - 1];
            }
          }
        }
        r
      else
        r
  }

  /** `currentCourse`: the first course with the selected id, none when the id is falsy or dangling. */
  function CurrentCourse(courses: seq<Course>, selectedCourseId: Option<int>): (r: Option<Course>)
    ensures !Truthy(selectedCourseId) ==> r == None
    ensures Truthy(selectedCourseId) ==>
      (r == None <==> forall c :: c in courses ==> c.id != selectedCourseId.value)
    ensures r.Some? ==>
      Truthy(selectedCourseId) && r.value in courses && r.value.id == selectedCourseId.value &&
      IsFirstMatch(courses, CourseId, selectedCourseId.value, r.value)
  {
    if !Truthy(selectedCourseId) then None
    else Find(courses, CourseId, selectedCourseId.value)
  }

  /** `currentTheme`: looked up only among the themes of the current course. */
  function CurrentTheme(courses: seq<Course>, selectedCourseId: Option<int>, selectedThemeId: Option<int>): (r: Option<Theme>)
    ensures CurrentCourse(courses, selectedCourseId) == None || !Truthy(selectedThemeId) ==> r == None
    ensures CurrentCourse(courses, selectedCourseId).Some? && Truthy(selectedThemeId) ==>
      (r == None <==>
        forall t :: t in CurrentCourse(courses, selectedCourseId).value.themes ==> t.id != selectedThemeId.value)
    ensures r.Some? ==>
      CurrentCourse(courses, selectedCourseId).Some? && Truthy(selectedThemeId) &&
      r.value in CurrentCourse(courses, selectedCourseId).value.themes && r.value.id == selectedThemeId.value &&
      IsFirstMatch(CurrentCourse(courses, selectedCourseId).value.themes, ThemeId, selectedThemeId.value, r.value)
  {
    if !Truthy(selectedThemeId) then None
    else match CurrentCourse(courses, selectedCourseId)
      case None => None
      case Some(course) => Find(course.themes, ThemeId, selectedThemeId.value)
  }

  /** `currentMaterial`: looked up only among the materials of the current theme. */
  function CurrentMaterial(courses: seq<Course>, selectedCourseId: Option<int>, selectedThemeId: Option<int>,
                           selectedMaterialId: Option<int>): (r: Option<Material>)
    ensures CurrentTheme(courses, selectedCourseId, selectedThemeId) == None || !Truthy(selectedMaterialId) ==> r == None
    ensures CurrentTheme(courses, selectedCourseId, selectedThemeId).Some? && Truthy(selectedMaterialId) ==>
      (r == None <==>
        forall m :: m in CurrentTheme(courses, selectedCourseId, selectedThemeId).value.materials ==>
          m.id != selectedMaterialId.value)
    ensures r.Some? ==>
      CurrentTheme(courses, selectedCourseId, selectedThemeId).Some? && Truthy(selectedMaterialId) &&
      r.value in CurrentTheme(courses, selectedCourseId, selectedThemeId).value.materials &&
      r.value.id == selectedMaterialId.value &&
      IsFirstMatch(CurrentTheme(courses, selectedCourseId, selectedThemeId).value.materials, MaterialId,
                   selectedMaterialId.value, r.value)
  {
    if !Truthy(selectedMaterialId) then None
    else match CurrentTheme(courses, selectedCourseId, selectedThemeId)
      case None => None
      case Some(theme) => Find(theme.materials, MaterialId, selectedMaterialId.value)
  }

  /**
   * No derived leaf without resolvable ancestors: a current material sits
   * in the current theme, which sits in the current course, which sits in
   * the collection, each carrying the selected id.
   */
  lemma MaterialHasAncestors(courses: seq<Course>, sc: Option<int>, st: Option<int>, sm: Option<int>)
    requires CurrentMaterial(courses, sc, st, sm).Some?
    ensures CurrentTheme(courses, sc, st).Some? && CurrentCourse(courses, sc).Some?
    ensures CurrentCourse(courses, sc).value in courses && CurrentCourse(courses, sc).value.id == sc.value
    ensures CurrentTheme(courses, sc, st).value in CurrentCourse(courses, sc).value.themes
    ensures CurrentTheme(courses, sc, st).value.id == st.value
    ensures CurrentMaterial(courses, sc, st, sm).value in CurrentTheme(courses, sc, st).value.materials
    ensures CurrentMaterial(courses, sc, st, sm).value.id == sm.value
  {
  }

  /** A selected id of 0 selects nothing, even when an entity with id 0 exists. */
  lemma ZeroIdSelectsNothing(courses: seq<Course>, st: Option<int>, sm: Option<int>)
    ensures CurrentCourse(courses, Some(0)) == None
    ensures CurrentTheme(courses, Some(0), st) == None
    ensures CurrentMaterial(courses, Some(0), st, sm) == None
  {
  }

  /**
   * The theme lookup is scoped to the current course: a resolved theme
   * belongs to the current course, and the courses other than the current
   * one do not affect it.
   */
  lemma ThemeOfOtherCourseIsNotCurrent(courses: seq<Course>, others: seq<Course>, sc: Option<int>, st: Option<int>)
    requires CurrentCourse(courses, sc).Some?
    ensures CurrentTheme(courses, sc, st).Some? ==>
      CurrentTheme(courses, sc, st).value in CurrentCourse(courses, sc).value.themes
    ensures CurrentCourse([CurrentCourse(courses, sc).value] + others, sc) == CurrentCourse(courses, sc)
    ensures CurrentTheme([CurrentCourse(courses, sc).value] + others, sc, st) == CurrentTheme(courses, sc, st)
  {
    var c := CurrentCourse(courses, sc).value;
    assert CourseId(([c] + others)[0]) == sc.value;
  }
}
