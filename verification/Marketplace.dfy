/**
 The marketplace catalogues (src/modules/marketplace/college.service.ts and course.service.ts):
 slugs of colleges are unique, slugs of courses are unique within their college. Rows are
 identified by their position; removing a row only deactivates it.
 */
module Marketplace {
  import opened Wrappers
  import opened Slugs
  import Text

  datatype College = College(name: string, slug: string, active: bool)
  datatype Course = Course(collegeId: nat, name: string, slug: string, active: bool)
  datatype Catalogue = Catalogue(colleges: seq<College>, courses: seq<Course>)

  datatype Error = NotFound | UniqueViolation | ForeignKeyViolation

  datatype Request =
    | CreateCollege(name: string, active: Option<bool>)
    | UpdateCollege(id: nat, newName: Option<string>, active: Option<bool>)
    | RemoveCollege(id: nat)
    | CreateCourse(collegeId: nat, name: string, active: Option<bool>)
    | UpdateCourse(id: nat, newCollegeId: Option<nat>, newName: Option<string>, active: Option<bool>)
    | RemoveCourse(id: nat)

  function CollegeBase(name: string): string {
    if Slugify(name) == "" then "college" else Slugify(name)
  }

  function CourseBase(name: string): string {
    if Slugify(name) == "" then "course" else Slugify(name)
  }

  /** The slugs of all colleges but one, deactivated ones included. */
  function OtherCollegeSlugs(colleges: seq<College>, except: Option<nat>): set<string> {
    set i | 0 <= i < |colleges| && Some(i) != except :: colleges[i].slug
  }

  function OtherCourseSlugs(courses: seq<Course>, collegeId: nat, except: Option<nat>): set<string> {
    set i | 0 <= i < |courses| && courses[i].collegeId == collegeId && Some(i) != except :: courses[i].slug
  }

  /** Only a new name that is not empty brings a new slug. */
  predicate Renames(oldName: string, newName: Option<string>) {
    newName.Some? && newName.value != "" && newName.value != oldName
  }

  function UpdatedCollege(colleges: seq<College>, id: nat, newName: Option<string>, active: Option<bool>): College
    requires id < |colleges|
  {
    var c := colleges[id];
    var slug := if Renames(c.name, newName)
                then FreeSlug(CollegeBase(newName.value), OtherCollegeSlugs(colleges, Some(id)))
                else c.slug;
    College(newName.GetOr(c.name), slug, active.GetOr(c.active))
  }

  function UpdatedCourse(courses: seq<Course>, id: nat, newCollegeId: Option<nat>, newName: Option<string>,
                         active: Option<bool>): Course
    requires id < |courses|
  {
    var c := courses[id];
    var collegeId := newCollegeId.GetOr(c.collegeId);
    var slug := if Renames(c.name, newName)
                then FreeSlug(CourseBase(newName.value), OtherCourseSlugs(courses, collegeId, Some(id)))
                else c.slug;
    Course(collegeId, newName.GetOr(c.name), slug, active.GetOr(c.active))
  }

  /** One request. The stored constraints refuse what the search for a slug did not prevent. */
  function Apply(s: Catalogue, request: Request): Result<Catalogue, Error> {
    match request
    case CreateCollege(name, active) =>
      var slug := FreeSlug(CollegeBase(name), OtherCollegeSlugs(s.colleges, None));
      Ok(s.(colleges := s.colleges + [College(name, slug, active.GetOr(true))]))
    case UpdateCollege(id, newName, active) =>
      if id >= |s.colleges| then Err(NotFound)
      else Ok(s.(colleges := s.colleges[id := UpdatedCollege(s.colleges, id, newName, active)]))
    case RemoveCollege(id) =>
      if id >= |s.colleges| then Err(NotFound)
      else Ok(s.(colleges := s.colleges[id := s.colleges[id].(active := false)]))
    case CreateCourse(collegeId, name, active) =>
      if collegeId >= |s.colleges| then Err(NotFound)
      else
        var slug := FreeSlug(CourseBase(name), OtherCourseSlugs(s.courses, collegeId, None));
        Ok(s.(courses := s.courses + [Course(collegeId, name, slug, active.GetOr(true))]))
    case UpdateCourse(id, newCollegeId, newName, active) =>
      if id >= |s.courses| then Err(NotFound)
      else
        var c := UpdatedCourse(s.courses, id, newCollegeId, newName, active);
        if c.slug in OtherCourseSlugs(s.courses, c.collegeId, Some(id)) then Err(UniqueViolation)
        else if c.collegeId >= |s.colleges| then Err(ForeignKeyViolation)
        else Ok(s.(courses := s.courses[id := c]))
    case RemoveCourse(id) =>
      if id >= |s.courses| then Err(NotFound)
      else Ok(s.(courses := s.courses[id := s.courses[id].(active := false)]))
  }

  // ---- The catalogue as stored -----------------------------------------------------------------

  class Store {
    var colleges: seq<College>
    var courses: seq<Course>

    function Rows(): Catalogue
      reads this
    {
      Catalogue(colleges, courses)
    }

    constructor ()
      ensures Rows() == Catalogue([], []) && Sound(Rows())
    {
      colleges, courses := [], [];
    }

    method CreateCollege(name: string, active: Option<bool>)
      modifies this
      ensures Ok(Rows()) == Apply(old(Rows()), Request.CreateCollege(name, active))
    {
      var slug := UniqueSlug(CollegeBase(name), OtherCollegeSlugs(colleges, None));
      colleges := colleges + [College(name, slug, active.GetOr(true))];
    }

    method UpdateCollege(id: nat, newName: Option<string>, active: Option<bool>) returns (error: Option<Error>)
      modifies this
      ensures Outcome(old(Rows()), Rows(), error) == Apply(old(Rows()), Request.UpdateCollege(id, newName, active))
      ensures error.Some? ==> Rows() == old(Rows())
    {
      if id >= |colleges| {
        return Some(NotFound);
      }
      var college := colleges[id];
      var slug := college.slug;
      if Renames(college.name, newName) {
        slug := UniqueSlug(CollegeBase(newName.value), OtherCollegeSlugs(colleges, Some(id)));
      }
      colleges := colleges[id := College(newName.GetOr(college.name), slug, active.GetOr(college.active))];
      return None;
    }

    method RemoveCollege(id: nat) returns (error: Option<Error>)
      modifies this
      ensures Outcome(old(Rows()), Rows(), error) == Apply(old(Rows()), Request.RemoveCollege(id))
      ensures error.Some? ==> Rows() == old(Rows())
    {
      if id >= |colleges| {
        return Some(NotFound);
      }
      colleges := colleges[id := colleges[id].(active := false)];
      return None;
    }

    method CreateCourse(collegeId: nat, name: string, active: Option<bool>) returns (error: Option<Error>)
      modifies this
      ensures Outcome(old(Rows()), Rows(), error) == Apply(old(Rows()), Request.CreateCourse(collegeId, name, active))
      ensures error.Some? ==> Rows() == old(Rows())
    {
      if collegeId >= |colleges| {
        return Some(NotFound);
      }
      var slug := UniqueSlug(CourseBase(name), OtherCourseSlugs(courses, collegeId, None));
      courses := courses + [Course(collegeId, name, slug, active.GetOr(true))];
      return None;
    }

    method UpdateCourse(id: nat, newCollegeId: Option<nat>, newName: Option<string>, active: Option<bool>)
      returns (error: Option<Error>)
      modifies this
      ensures Outcome(old(Rows()), Rows(), error)
           == Apply(old(Rows()), Request.UpdateCourse(id, newCollegeId, newName, active))
      ensures error.Some? ==> Rows() == old(Rows())
    {
      if id >= |courses| {
        return Some(NotFound);
      }
      var course := courses[id];
      var collegeId, slug := newCollegeId.GetOr(course.collegeId), course.slug;
      if Renames(course.name, newName) {
        slug := UniqueSlug(CourseBase(newName.value), OtherCourseSlugs(courses, collegeId, Some(id)));
      }
      if slug in OtherCourseSlugs(courses, collegeId, Some(id)) {
        return Some(UniqueViolation);
      }
      if collegeId >= |colleges| {
        return Some(ForeignKeyViolation);
      }
      courses := courses[id := Course(collegeId, newName.GetOr(course.name), slug, active.GetOr(course.active))];
      return None;
    }

    method RemoveCourse(id: nat) returns (error: Option<Error>)
      modifies this
      ensures Outcome(old(Rows()), Rows(), error) == Apply(old(Rows()), Request.RemoveCourse(id))
      ensures error.Some? ==> Rows() == old(Rows())
    {
      if id >= |courses| {
        return Some(NotFound);
      }
      courses := courses[id := courses[id].(active := false)];
      return None;
    }
  }

  function Outcome(before: Catalogue, after: Catalogue, error: Option<Error>): Result<Catalogue, Error> {
    if error.None? then Ok(after) else Err(error.value)
  }

  // ---- What every request keeps -------------------------------------------------------------------

  predicate CollegesSound(colleges: seq<College>) {
    && (forall i :: 0 <= i < |colleges| ==> IsSlug(colleges[i].slug) && colleges[i].slug != "")
    && (forall i, j :: 0 <= i < j < |colleges| ==> colleges[i].slug != colleges[j].slug)
  }

  predicate CoursesSound(courses: seq<Course>) {
    && (forall i :: 0 <= i < |courses| ==> IsSlug(courses[i].slug) && courses[i].slug != "")
    && (forall i, j :: 0 <= i < j < |courses| ==>
          courses[i].collegeId != courses[j].collegeId || courses[i].slug != courses[j].slug)
  }

  /** Slugs are proper, no two colleges share one, nor do two courses of one college; courses have a college. */
  predicate Sound(s: Catalogue) {
    && CollegesSound(s.colleges) && CoursesSound(s.courses)
    && forall i :: 0 <= i < |s.courses| ==> s.courses[i].collegeId < |s.colleges|
  }

  lemma FreeSlugIsASlug(base: string, taken: set<string>)
    requires IsSlug(base) && base != ""
    ensures IsSlug(FreeSlug(base, taken)) && FreeSlug(base, taken) != "" && FreeSlug(base, taken) !in taken
  {
    CandidateIsASlug(base, FreeSuffix(base, taken, 1));
  }

  lemma BasesAreSlugs(name: string)
    ensures IsSlug(CollegeBase(name)) && CollegeBase(name) != ""
    ensures IsSlug(CourseBase(name)) && CourseBase(name) != ""
  {
    SlugifyJoinsWords(name);
  }

  /** No college but the given one has the slug. */
  predicate FreeAmongColleges(slug: string, colleges: seq<College>, except: Option<nat>) {
    IsSlug(slug) && slug != "" && forall i :: 0 <= i < |colleges| && Some(i) != except ==> colleges[i].slug != slug
  }

  predicate FreeAmongCourses(slug: string, courses: seq<Course>, collegeId: nat, except: Option<nat>) {
    && IsSlug(slug) && slug != ""
    && forall i :: 0 <= i < |courses| && courses[i].collegeId == collegeId && Some(i) != except
         ==> courses[i].slug != slug
  }

  lemma CollegeSlugIsFree(colleges: seq<College>, except: Option<nat>, name: string)
    ensures FreeAmongColleges(FreeSlug(CollegeBase(name), OtherCollegeSlugs(colleges, except)), colleges, except)
  {
    BasesAreSlugs(name);
    var taken := OtherCollegeSlugs(colleges, except);
    FreeSlugIsASlug(CollegeBase(name), taken);
    forall i | 0 <= i < |colleges| && Some(i) != except ensures colleges[i].slug in taken {
    }
  }

  lemma CourseSlugIsFree(courses: seq<Course>, collegeId: nat, except: Option<nat>, name: string)
    ensures FreeAmongCourses(FreeSlug(CourseBase(name), OtherCourseSlugs(courses, collegeId, except)),
                             courses, collegeId, except)
  {
    BasesAreSlugs(name);
    var taken := OtherCourseSlugs(courses, collegeId, except);
    FreeSlugIsASlug(CourseBase(name), taken);
    forall i | 0 <= i < |courses| && courses[i].collegeId == collegeId && Some(i) != except
      ensures courses[i].slug in taken
    {
    }
  }

  lemma UpdatedCollegeIsFree(colleges: seq<College>, id: nat, newName: Option<string>, active: Option<bool>)
    requires CollegesSound(colleges) && id < |colleges|
    ensures FreeAmongColleges(UpdatedCollege(colleges, id, newName, active).slug, colleges, Some(id))
  {
    if Renames(colleges[id].name, newName) {
      CollegeSlugIsFree(colleges, Some(id), newName.value);
    }
  }

  lemma UpdatedCourseIsFree(courses: seq<Course>, id: nat, newCollegeId: Option<nat>, newName: Option<string>,
                            active: Option<bool>)
    requires CoursesSound(courses) && id < |courses|
    ensures var c := UpdatedCourse(courses, id, newCollegeId, newName, active);
            c.slug in OtherCourseSlugs(courses, c.collegeId, Some(id))
            || FreeAmongCourses(c.slug, courses, c.collegeId, Some(id))
  {
    var c := UpdatedCourse(courses, id, newCollegeId, newName, active);
    var taken := OtherCourseSlugs(courses, c.collegeId, Some(id));
    if Renames(courses[id].name, newName) {
      CourseSlugIsFree(courses, c.collegeId, Some(id), newName.value);
    } else {
      forall i | 0 <= i < |courses| && courses[i].collegeId == c.collegeId && Some(i) != Some(id)
        ensures courses[i].slug in taken
      {
      }
    }
  }

  lemma AddCollegeKeepsSound(colleges: seq<College>, c: College)
    requires CollegesSound(colleges) && FreeAmongColleges(c.slug, colleges, None)
    ensures CollegesSound(colleges + [c])
  {
  }

  lemma PutCollegeKeepsSound(colleges: seq<College>, id: nat, c: College)
    requires CollegesSound(colleges) && id < |colleges| && FreeAmongColleges(c.slug, colleges, Some(id))
    ensures CollegesSound(colleges[id := c])
  {
  }

  lemma AddCourseKeepsSound(courses: seq<Course>, c: Course)
    requires CoursesSound(courses) && FreeAmongCourses(c.slug, courses, c.collegeId, None)
    ensures CoursesSound(courses + [c])
  {
  }

  lemma PutCourseKeepsSound(courses: seq<Course>, id: nat, c: Course)
    requires CoursesSound(courses) && id < |courses| && FreeAmongCourses(c.slug, courses, c.collegeId, Some(id))
    ensures CoursesSound(courses[id := c])
  {
  }

  lemma RequestKeepsSound(s: Catalogue, request: Request)
    requires Sound(s) && Apply(s, request).Ok?
    ensures Sound(Apply(s, request).value)
  {
    match request
    case CreateCollege(name, active) =>
      var slug := FreeSlug(CollegeBase(name), OtherCollegeSlugs(s.colleges, None));
      CollegeSlugIsFree(s.colleges, None, name);
      AddCollegeKeepsSound(s.colleges, College(name, slug, active.GetOr(true)));
    case UpdateCollege(id, newName, active) =>
      UpdatedCollegeIsFree(s.colleges, id, newName, active);
      PutCollegeKeepsSound(s.colleges, id, UpdatedCollege(s.colleges, id, newName, active));
    case RemoveCollege(id) =>
      PutCollegeKeepsSound(s.colleges, id, s.colleges[id].(active := false));
    case CreateCourse(collegeId, name, active) =>
      var slug := FreeSlug(CourseBase(name), OtherCourseSlugs(s.courses, collegeId, None));
      CourseSlugIsFree(s.courses, collegeId, None, name);
      AddCourseKeepsSound(s.courses, Course(collegeId, name, slug, active.GetOr(true)));
    case UpdateCourse(id, newCollegeId, newName, active) =>
      UpdatedCourseIsFree(s.courses, id, newCollegeId, newName, active);
      PutCourseKeepsSound(s.courses, id, UpdatedCourse(s.courses, id, newCollegeId, newName, active));
    case RemoveCourse(id) =>
      PutCourseKeepsSound(s.courses, id, s.courses[id].(active := false));
  }

  /** The state a run of requests leaves; a failing request changes nothing. */
  function After(s: Catalogue, requests: seq<Request>): Catalogue {
    if requests == [] then s
    else
      var before := After(s, requests[..|requests| - 1]);
      match Apply(before, requests[|requests| - 1])
      case Ok(after) => after
      case Err(_) => before
  }

  /** After any run of creations, updates and removals, slugs are proper and still distinct. */
  lemma {:induction false} SlugsStayDistinct(requests: seq<Request>)
    ensures Sound(After(Catalogue([], []), requests))
  {
    if requests != [] {
      SlugsStayDistinct(requests[..|requests| - 1]);
      var before := After(Catalogue([], []), requests[..|requests| - 1]);
      if Apply(before, requests[|requests| - 1]).Ok? {
        RequestKeepsSound(before, requests[|requests| - 1]);
      }
    }
  }

  /** The run's request number k renames the college. */
  predicate RenamesAt(s: Catalogue, requests: seq<Request>, k: nat, id: nat)
    requires k < |requests|
  {
    var colleges := After(s, requests[..k]).colleges;
    requests[k].UpdateCollege? && requests[k].id == id < |colleges| && Renames(colleges[id].name, requests[k].newName)
  }

  /** A college keeps its address: nothing but a renaming update of that very college changes its slug. */
  lemma {:induction false} AddressesLast(s: Catalogue, requests: seq<Request>, id: nat)
    requires id < |s.colleges|
    requires forall k :: 0 <= k < |requests| ==> !RenamesAt(s, requests, k, id)
    ensures id < |After(s, requests).colleges| && After(s, requests).colleges[id].slug == s.colleges[id].slug
  {
    if requests != [] {
      var n := |requests| - 1;
      var prefix := requests[..n];
      forall k | 0 <= k < n ensures !RenamesAt(s, prefix, k, id) {
        assert !RenamesAt(s, requests, k, id) && prefix[..k] == requests[..k];
      }
      AddressesLast(s, prefix, id);
      assert !RenamesAt(s, requests, n, id);
    }
  }

  /** An update of a course fails on the stored constraint exactly when it moves the course, under
      its old slug, to a college where another course has that slug. */
  lemma WhenMovingACourseFails(s: Catalogue, id: nat, newCollegeId: Option<nat>, newName: Option<string>,
                               active: Option<bool>)
    requires Sound(s) && id < |s.courses|
    ensures var c := s.courses[id];
            Apply(s, UpdateCourse(id, newCollegeId, newName, active)) == Err(UniqueViolation) <==>
              !Renames(c.name, newName) && newCollegeId.Some?
              && exists i :: 0 <= i < |s.courses| && i != id && s.courses[i].collegeId == newCollegeId.value
                   && s.courses[i].slug == c.slug
  {
    var c := s.courses[id];
    var u := UpdatedCourse(s.courses, id, newCollegeId, newName, active);
    var taken := OtherCourseSlugs(s.courses, u.collegeId, Some(id));
    if Renames(c.name, newName) {
      CourseSlugIsFree(s.courses, u.collegeId, Some(id), newName.value);
    } else if u.slug in taken {
      var i :| 0 <= i < |s.courses| && s.courses[i].collegeId == u.collegeId && Some(i) != Some(id)
               && s.courses[i].slug == u.slug;
      assert i != id;
    }
  }

  // ---- Names and slugs told by the requests -----------------------------------------------------------

  /** The slug is that of the name, or the given word for a name without letters and digits, with the
      suffix -2, -3 and so on when that was taken. */
  ghost predicate SlugOfName(slug: string, name: string, fallback: string) {
    var words := Text.Join(Words(Lower(name)), "-");
    var base := if words == "" then fallback else words;
    slug == base || exists n :: 2 <= n && slug == base + "-" + Digits(n)
  }

  lemma FreeSlugIsOfName(name: string, base: string, fallback: string, taken: set<string>)
    requires base == if Slugify(name) == "" then fallback else Slugify(name)
    ensures SlugOfName(FreeSlug(base, taken), name, fallback)
  {
    SlugifyJoinsWords(name);
    var n := FreeSuffix(base, taken, 1);
    if n >= 2 {
      assert Candidate(base, n) == base + "-" + Digits(n);
    }
  }

  /** Of the name's slug and those with -2, -3 and so on behind it, the first that nobody else has. */
  ghost predicate FirstFreeSlug(slug: string, name: string, fallback: string, taken: set<string>) {
    var words := Text.Join(Words(Lower(name)), "-");
    var base := if words == "" then fallback else words;
    && slug !in taken
    && (slug == base
        || (base in taken
            && exists n :: 2 <= n && slug == base + "-" + Digits(n)
                           && forall m :: 2 <= m < n ==> base + "-" + Digits(m) in taken))
  }

  lemma FreeSlugIsFirst(name: string, base: string, fallback: string, taken: set<string>)
    requires base == if Slugify(name) == "" then fallback else Slugify(name)
    ensures FirstFreeSlug(FreeSlug(base, taken), name, fallback, taken)
  {
    SlugifyJoinsWords(name);
    var n := FreeSuffix(base, taken, 1);
    if n >= 2 {
      assert Candidate(base, 1) == base && base in taken;
      forall m | 2 <= m < n ensures base + "-" + Digits(m) in taken {
        assert Candidate(base, m) == base + "-" + Digits(m);
      }
      assert FreeSlug(base, taken) == base + "-" + Digits(n);
    }
  }

  /** A college that is added or really renamed gets the first slug of its name that no other college has. */
  lemma CollegesTakeTheFirstFreeSlug(s: Catalogue, r: Request)
    requires Apply(s, r).Ok?
    ensures r.CreateCollege? ==>
              && |Apply(s, r).value.colleges| == |s.colleges| + 1
              && FirstFreeSlug(Apply(s, r).value.colleges[|s.colleges|].slug, r.name, "college",
                               set c | c in s.colleges :: c.slug)
    ensures r.UpdateCollege? ==>
              && r.id < |s.colleges| == |Apply(s, r).value.colleges|
              && (Renames(s.colleges[r.id].name, r.newName) ==>
                    FirstFreeSlug(Apply(s, r).value.colleges[r.id].slug, r.newName.value, "college",
                                  set i | 0 <= i < |s.colleges| && i != r.id :: s.colleges[i].slug))
  {
    match r
    case CreateCollege(name, _) =>
      var others := set c | c in s.colleges :: c.slug;
      assert OtherCollegeSlugs(s.colleges, None) == others;
      FreeSlugIsFirst(name, CollegeBase(name), "college", others);
    case UpdateCollege(id, newName, _) =>
      var others := set i | 0 <= i < |s.colleges| && i != id :: s.colleges[i].slug;
      assert OtherCollegeSlugs(s.colleges, Some(id)) == others;
      if newName.Some? {
        FreeSlugIsFirst(newName.value, CollegeBase(newName.value), "college", others);
      }
    case _ =>
  }

  /** And so does a course, among the courses of the college it is added or moved to. */
  lemma CoursesTakeTheFirstFreeSlug(s: Catalogue, r: Request)
    requires Apply(s, r).Ok?
    ensures r.CreateCourse? ==>
              && |Apply(s, r).value.courses| == |s.courses| + 1
              && FirstFreeSlug(Apply(s, r).value.courses[|s.courses|].slug, r.name, "course",
                               set c | c in s.courses && c.collegeId == r.collegeId :: c.slug)
    ensures r.UpdateCourse? ==>
              && r.id < |s.courses| == |Apply(s, r).value.courses|
              && (Renames(s.courses[r.id].name, r.newName) ==>
                    var collegeId := if r.newCollegeId.Some? then r.newCollegeId.value else s.courses[r.id].collegeId;
                    FirstFreeSlug(Apply(s, r).value.courses[r.id].slug, r.newName.value, "course",
                                  set i | 0 <= i < |s.courses| && i != r.id && s.courses[i].collegeId == collegeId
                                    :: s.courses[i].slug))
  {
    match r
    case CreateCourse(collegeId, name, _) =>
      var others := set c | c in s.courses && c.collegeId == collegeId :: c.slug;
      assert OtherCourseSlugs(s.courses, collegeId, None) == others;
      FreeSlugIsFirst(name, CourseBase(name), "course", others);
    case UpdateCourse(id, newCollegeId, newName, _) =>
      var collegeId := newCollegeId.GetOr(s.courses[id].collegeId);
      var others := set i | 0 <= i < |s.courses| && i != id && s.courses[i].collegeId == collegeId :: s.courses[i].slug;
      assert OtherCourseSlugs(s.courses, collegeId, Some(id)) == others;
      if newName.Some? {
        FreeSlugIsFirst(newName.value, CourseBase(newName.value), "course", others);
      }
    case _ =>
  }

  /** What a college is called, what its slug was made from and whether it is listed. */
  datatype Naming = Naming(name: string, slugFrom: string, active: bool)

  /** The last requests about college id tell; removing only hides it. */
  function CollegeNaming(requests: seq<Request>, id: nat): Option<Naming> {
    if requests == [] then None
    else
      var before, r := CollegeNaming(requests[..|requests| - 1], id), requests[|requests| - 1];
      if before.None? then
        (if r.CreateCollege? && id == |After(Catalogue([], []), requests[..|requests| - 1]).colleges|
         then Some(Naming(r.name, r.name, if r.active.Some? then r.active.value else true)) else None)
      else if r.UpdateCollege? && r.id == id then
        var name := if r.newName.Some? then r.newName.value else before.value.name;
        Some(Naming(name, if name != "" && name != before.value.name then name else before.value.slugFrom,
                    if r.active.Some? then r.active.value else before.value.active))
      else if r.RemoveCollege? && r.id == id then Some(before.value.(active := false))
      else before
  }

  /** After any run a college has its last name, a slug of the last name that was a real renaming, and is
      listed as last said. */
  lemma {:induction false} CollegesAreAsNamed(requests: seq<Request>, id: nat)
    ensures var colleges := After(Catalogue([], []), requests).colleges;
            && (id < |colleges| <==> CollegeNaming(requests, id).Some?)
            && (id < |colleges| ==>
                  var n := CollegeNaming(requests, id).value;
                  && colleges[id].name == n.name && colleges[id].active == n.active
                  && SlugOfName(colleges[id].slug, n.slugFrom, "college"))
  {
    if requests != [] {
      var before, r := After(Catalogue([], []), requests[..|requests| - 1]), requests[|requests| - 1];
      CollegesAreAsNamed(requests[..|requests| - 1], id);
      if r.CreateCollege? {
        FreeSlugIsOfName(r.name, CollegeBase(r.name), "college", OtherCollegeSlugs(before.colleges, None));
      } else if r.UpdateCollege? && r.id == id < |before.colleges| && r.newName.Some? {
        var name := r.newName.value;
        FreeSlugIsOfName(name, CollegeBase(name), "college", OtherCollegeSlugs(before.colleges, Some(id)));
      }
    }
  }

  /** A course that is added, or updated without being refused, has what the request said, and on a real
      renaming a slug of its new name. */
  lemma CoursesAreAsNamed(s: Catalogue, r: Request)
    requires (r.CreateCourse? || r.UpdateCourse?) && Apply(s, r).Ok?
    ensures var after := Apply(s, r).value;
            && after.colleges == s.colleges
            && (r.CreateCourse? ==>
                  && |after.courses| == |s.courses| + 1 && after.courses[..|s.courses|] == s.courses
                  && var c := after.courses[|s.courses|];
                     && c.collegeId == r.collegeId && c.name == r.name && c.active == (r.active.None? || r.active.value)
                     && SlugOfName(c.slug, r.name, "course"))
            && (r.UpdateCourse? ==>
                  && |after.courses| == |s.courses|
                  && (forall i :: 0 <= i < |s.courses| && i != r.id ==> after.courses[i] == s.courses[i])
                  && var before, c := s.courses[r.id], after.courses[r.id];
                     && c.collegeId == (if r.newCollegeId.Some? then r.newCollegeId.value else before.collegeId)
                     && c.name == (if r.newName.Some? then r.newName.value else before.name)
                     && c.active == (if r.active.Some? then r.active.value else before.active)
                     && (if c.name != "" && c.name != before.name then SlugOfName(c.slug, c.name, "course") else c.slug == before.slug))
  {
    match r
    case CreateCourse(collegeId, name, _) =>
      FreeSlugIsOfName(name, CourseBase(name), "course", OtherCourseSlugs(s.courses, collegeId, None));
    case UpdateCourse(id, newCollegeId, newName, _) =>
      var collegeId := newCollegeId.GetOr(s.courses[id].collegeId);
      if newName.Some? {
        var name := newName.value;
        FreeSlugIsOfName(name, CourseBase(name), "course", OtherCourseSlugs(s.courses, collegeId, Some(id)));
      }
    case _ =>
  }

  /** When each request on the catalogue is refused, and that removing a row only hides it. */
  lemma CatalogueRefusesExactlyWhen(s: Catalogue, r: Request)
    requires Sound(s)
    ensures Apply(s, r) == Err(NotFound) <==>
              match r
              case CreateCollege(_, _) => false
              case UpdateCollege(id, _, _) => |s.colleges| <= id
              case RemoveCollege(id) => |s.colleges| <= id
              case CreateCourse(collegeId, _, _) => |s.colleges| <= collegeId
              case UpdateCourse(id, _, _, _) => |s.courses| <= id
              case RemoveCourse(id) => |s.courses| <= id
    ensures Apply(s, r) == Err(ForeignKeyViolation) <==>
              r.UpdateCourse? && r.id < |s.courses| && r.newCollegeId.Some? && r.newCollegeId.value >= |s.colleges|
    ensures r.RemoveCourse? && r.id < |s.courses| ==>
              Apply(s, r) == Ok(s.(courses := s.courses[r.id := s.courses[r.id].(active := false)]))
  {
  }
}
