/**
 * The content store: the fetched course collection, a three-level
 * selection cursor, and the loading/error flags of the last fetch.
 * The awaited service call is the `response` parameter of the fetch.
 */
module CoursesStore {
  import opened Wrappers
  import opened Entities
  import Selection

  class CoursesStore {
    var courses: seq<Course>
    var selectedCourseId: Option<int>
    var selectedThemeId: Option<int>
    var selectedMaterialId: Option<int>
    var loading: bool
    var error: Option<string>

    /** The cursor, re-derived from the live collection on every read. */
    function CurrentCourse(): Option<Course>
      reads this
    {
      Selection.CurrentCourse(courses, selectedCourseId)
    }

    function CurrentTheme(): Option<Theme>
      reads this
    {
      Selection.CurrentTheme(courses, selectedCourseId, selectedThemeId)
    }

    function CurrentMaterial(): Option<Material>
      reads this
    {
      Selection.CurrentMaterial(courses, selectedCourseId, selectedThemeId, selectedMaterialId)
    }

    /** The store as created: nothing fetched, nothing selected, idle, no error. */
    constructor ()
      ensures courses == [] && !loading && error == None
      ensures selectedCourseId == None && selectedThemeId == None && selectedMaterialId == None
      ensures CurrentCourse() == None && CurrentTheme() == None && CurrentMaterial() == None
    {
      courses := [];
      selectedCourseId, selectedThemeId, selectedMaterialId := None, None, None;
      loading := false;
      error := None;
    }

    /** The first step of `fetchCourses`, the state while the request is in flight. */
    method BeginFetch()
      modifies this
      ensures loading && error == None
      ensures courses == old(courses)
      ensures selectedCourseId == old(selectedCourseId) && selectedThemeId == old(selectedThemeId)
      ensures selectedMaterialId == old(selectedMaterialId)
    {
      loading := true;
      error := None;
    }

    /**
     * The step after the awaited call. An error keeps the collection and
     * records the message; a result replaces the collection wholesale.
     */
    method ResolveFetch(response: Response<BackendResponse<Course>>) returns (ok: bool)
      modifies this
      ensures ok <==> response.Ok?
      ensures !loading
      ensures response.Err? ==> courses == old(courses) && error == Some(response.error.message)
      ensures response.Ok? ==> courses == response.result.results && error == old(error)
      ensures selectedCourseId == old(selectedCourseId) && selectedThemeId == old(selectedThemeId)
      ensures selectedMaterialId == old(selectedMaterialId)
    {
      if response.Err? {
        error := Some(response.error.message);
        loading := false;
        return false;
      }
      // a successful response always carries its envelope, so the guard on it always passes
      courses := response.result.results;
      loading := false;
      return true;
    }

    /**
     * `fetchCourses`: a failure is reported and never destroys the data
     * already held; a success replaces the data and clears any old error.
     * The cursor is kept either way, so a dangling id simply resolves to
     * nothing.
     */
    method FetchCourses(response: Response<BackendResponse<Course>>) returns (ok: bool)
      modifies this
      ensures ok <==> response.Ok?
      ensures !loading
      ensures response.Err? ==> courses == old(courses) && error == Some(response.error.message)
      ensures response.Err? ==>
        CurrentCourse() == old(CurrentCourse()) && CurrentTheme() == old(CurrentTheme()) &&
        CurrentMaterial() == old(CurrentMaterial())
      ensures response.Ok? ==> courses == response.result.results && error == None
      ensures response.Ok? ==> CurrentCourse() == Selection.CurrentCourse(response.result.results, selectedCourseId)
      ensures selectedCourseId == old(selectedCourseId) && selectedThemeId == old(selectedThemeId)
      ensures selectedMaterialId == old(selectedMaterialId)
    {
      BeginFetch();
      ok := ResolveFetch(response);
    }

    /** `selectCourse`: always clears the theme and material ids, even when the course id is unchanged. */
    method SelectCourse(courseId: Option<int>)
      modifies this
      ensures selectedCourseId == courseId && selectedThemeId == None && selectedMaterialId == None
      ensures courses == old(courses) && loading == old(loading) && error == old(error)
      ensures CurrentTheme() == None && CurrentMaterial() == None
    {
      selectedCourseId := courseId;
      selectedThemeId := None;
      selectedMaterialId := None;
    }

    /** `selectTheme`: clears the material id only. */
    method SelectTheme(themeId: Option<int>)
      modifies this
      ensures selectedThemeId == themeId && selectedMaterialId == None
      ensures selectedCourseId == old(selectedCourseId)
      ensures courses == old(courses) && loading == old(loading) && error == old(error)
      ensures CurrentCourse() == old(CurrentCourse()) && CurrentMaterial() == None
    {
      selectedThemeId := themeId;
      selectedMaterialId := None;
    }

    /** `selectMaterial`: the leaf level, nothing else changes. */
    method SelectMaterial(materialId: Option<int>)
      modifies this
      ensures selectedMaterialId == materialId
      ensures selectedCourseId == old(selectedCourseId) && selectedThemeId == old(selectedThemeId)
      ensures courses == old(courses) && loading == old(loading) && error == old(error)
      ensures CurrentCourse() == old(CurrentCourse()) && CurrentTheme() == old(CurrentTheme())
    {
      selectedMaterialId := materialId;
    }
  }

  /**
   * A selection walk over one course with one theme and one material:
   * the full path resolves to the material; re-selecting a missing course
   * drops the whole derived path and the theme id.
   */
  method SelectionWalk() returns (before: Option<Material>, after: Option<Material>, themeAfter: Option<int>,
                                  courseAfter: Option<Course>)
    ensures before.Some? && before.value.id == 100
    ensures after == None && themeAfter == None && courseAfter == None
  {
    var owner := User(1, "owner@example.org", "A", "B", "C", Teacher, "");
    var material := Material(100, "notes", "notes.pdf", 10, 1);
    var theme := Theme(10, "intro", None, 1, 1, [material], "");
    var course := Course(1, "course", owner, [], [theme], None);
    var store := new CoursesStore();
    var ok := store.FetchCourses(Ok(BackendResponse(1, None, None, [course])));
    store.SelectCourse(Some(1));
    store.SelectTheme(Some(10));
    store.SelectMaterial(Some(100));
    before := store.CurrentMaterial();
    store.SelectCourse(Some(2));
    after := store.CurrentMaterial();
    themeAfter := store.selectedThemeId;
    courseAfter := store.CurrentCourse();
  }
}
