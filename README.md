# Eazydoc: registration dialog and dashboard shell

A Dafny model of the two pieces of client-side logic in the Eazydoc healthcare
scheduling web application:

- **The registration flow** of the login/register dialog
  (`eazydoc_webapp3/src/components/login-dailog.tsx`), module `LoginDialog`. The
  component's state cells `activeTab`, `registerData`, `error` and `isLoading`
  are the fields of class `LoginDialog.Dialog`. `handleRegisterChange` is
  `Change`, `handleRegisterSubmit` is `Submit`, and the tab strip and the
  "Sign up"/"Login" links are `SelectTab`. The create-user request is not
  performed: `Submit` takes its `Outcome` as a parameter and returns the request
  body it would send (or `None` when it sends nothing). The outcome is `Ok`,
  `NotOk(message)` when `response.ok` is false, or `Threw` when the request or the
  JSON parse throws. The pure function `Submitted` states what a submission does,
  and the method is proved equal to it. A ghost history of interactions ties every
  reachable state of the dialog to `Run(Initial, history)`. The lemmas about `Run`
  then show that the dialog is never left loading and that only change events
  alter the form record.
- **The dashboard shell** (`src/components/dashboard-layout.tsx`), module
  `DashboardLayout`. It holds the navigation table per role (`GetNavigation`),
  the menu both sidebars render from it (`Menu`), and the exact-match highlight
  rule with the proof that at most one entry is highlighted. It also holds the
  avatar initial and the mount guard (`Render`, where `isMounted` is a
  parameter).

Where the code and the design description differ, the model follows the code.
On a failed registration the description says the tab is left on "register". The
code never sets the tab on that path, so the model leaves it unchanged. That is
"register" whenever the form was submitted from its own tab.

## Model

| member | source | states |
|---|---|---|
| LoginDialog.Dialog.constructor | eazydoc_webapp3/src/components/login-dailog.tsx:26-34 | the dialog starts on the login tab, with all four register fields empty, no error and not loading |
| LoginDialog.RegisterData.With | eazydoc_webapp3/src/components/login-dailog.tsx:38 | the changed field takes the new value and the other three fields keep theirs |
| LoginDialog.Changed | eazydoc_webapp3/src/components/login-dailog.tsx:36-39 | a change event alters only the named field of the register record: tab, error and loading are untouched |
| LoginDialog.Dialog.Change | eazydoc_webapp3/src/components/login-dailog.tsx:36-39 | the named input now holds the new value, the other fields are unchanged, and the dialog invariant is kept |
| LoginDialog.Dialog.SelectTab | eazydoc_webapp3/src/components/login-dailog.tsx:162 | switching tabs (the "Sign up" link here, the "Login" link at line 275 and the tab strip at line 83) sets only the active tab |
| LoginDialog.FailureMessage | eazydoc_webapp3/src/components/login-dailog.tsx:68 | a non-empty server message is shown as is; a missing or empty one becomes "An error occurred. Please try again."; the result is never empty |
| LoginDialog.Submitted | eazydoc_webapp3/src/components/login-dailog.tsx:41-78 | no request exactly on a password mismatch; otherwise the body is name, email and password of the current record; loading ends false and the record is untouched on every path; mismatch gives "Passwords do not match", ok switches to login with no error, not-ok gives the server message or the fallback, a throw gives the fallback, and the tab is unchanged on every failure; the error is empty exactly on success |
| LoginDialog.Dialog.Submit | eazydoc_webapp3/src/components/login-dailog.tsx:41-78 | the handler's step-by-step updates leave exactly the state and send exactly the request that `Submitted` gives, and keep the dialog invariant |
| LoginDialog.Dialog.IsSubmitDisabled | eazydoc_webapp3/src/components/login-dailog.tsx:236 | the submit control's disabled flag is the loading flag, and in every reachable state between interactions it is false |
| LoginDialog.RunStaysIdle | eazydoc_webapp3/src/components/login-dailog.tsx:43-76 | after any sequence of changes, submissions and tab switches from an idle state the dialog is not loading |
| LoginDialog.RunWithoutEditsKeepsData | eazydoc_webapp3/src/components/login-dailog.tsx:41-78 | submissions and tab switches never modify the register record |
| DashboardLayout.GetNavigation | src/components/dashboard-layout.tsx:36-63 | the list is empty exactly for a role other than patient, doctor or admin (including null); within each list names are pairwise distinct and hrefs are pairwise distinct |
| DashboardLayout.PatientNavigation | src/components/dashboard-layout.tsx:38-45 | the patient list is Overview, Appointments, Lab Results, Profile, Settings at /dashboard, /dashboard/appointments, /dashboard/lab-results, /dashboard/profile, /dashboard/settings, in that order |
| DashboardLayout.DoctorNavigation | src/components/dashboard-layout.tsx:46-52 | the doctor list is Dashboard, Appointments, Status, Settings at /docs, /docs/appointments, /docs/status, /docs/settings, in that order |
| DashboardLayout.AdminNavigation | src/components/dashboard-layout.tsx:53-59 | the admin list is Patients, Doctors, Appointments, Ambulances at /admin/patients, /admin/doctors, /admin/appointments, /admin/ambulances, in that order |
| DashboardLayout.Menu | src/components/dashboard-layout.tsx:108-118 | one entry per navigation item in the same order, keyed by its name, linking to its href, and highlighted exactly when its href equals the current path |
| DashboardLayout.NoneActive | src/components/dashboard-layout.tsx:113 | when no item's href is the current path, no entry is highlighted |
| DashboardLayout.ActiveIffListed | src/components/dashboard-layout.tsx:108-147 | with pairwise distinct hrefs at most one entry is highlighted, and exactly one is when the current path is one of the hrefs |
| DashboardLayout.NoPrefixMatch | src/components/dashboard-layout.tsx:113 | on /dashboard/appointments a patient's Overview entry (/dashboard, a prefix) is not highlighted and only Appointments is |
| DashboardLayout.AvatarInitial | src/components/dashboard-layout.tsx:188 | the first character of the user's name when there is a user with a non-empty name, and 'U' otherwise |
| DashboardLayout.Render | src/components/dashboard-layout.tsx:72-82 | nothing is rendered exactly while the mount flag is unset; once mounted, the mobile and desktop menus are the same list, follow the role's navigation in order, highlight by exact path match with at most one entry lit, and the avatar shows the initial |

## Left out

- The network request, `response.json()` and `console.error` are not performed: the request's result is the `Outcome` parameter of `Submit`, and the logged error is dropped.
- `data.message` is modelled as an optional string; a truthy non-string message is not modelled.
- React's scheduling of state updates and effects: updates are immediate sequential assignments. The state while the request is in flight (loading set, submit control disabled) is not a separate observable state of the model; `Submit` sets loading before the request and clears it after.
- The login tab's inputs, its "Login" button and the Google buttons have no handlers and are not modelled.
- The `onOpenChange` dialog prop is the caller's and is not modelled.
- JSX markup, styling, breakpoints, icons and the UI library components (Dialog, Tabs, Sheet, Sidebar, Button, Input) are presentation.
- `useAuth`, `logout` and `withRoleAccess` come from `@/context/auth-context`, which is not part of this model; the role, the user and the mount flag are parameters of `Render`, and the logout action is not modelled.
- `usePathname` is the routing framework's: the current path is a parameter.
- DashboardLayout.AvatarInitial: works on Dafny characters; JavaScript indexes a string by UTF-16 code unit, so a name starting with a character outside the Basic Multilingual Plane is not modelled.
- src/app/dashboard/lab-results/page.tsx only wraps a page in a layout and has no logic.
- src/app/api/appointments/[id]/route.ts (the appointment fetch, update and delete handler) is not part of this model: it is ORM calls over an external database schema.
