/** The install prompt of the web app: the browser's deferred
    `beforeinstallprompt` event, kept until it is used or the app is
    installed. */
module PwaInstallHook {
  import opened Wrappers

  /** A deferred install-prompt event, known by the platforms it lists. */
  datatype InstallPromptEvent = InstallPromptEvent(platforms: seq<string>)

  /** The user's answer to the install dialog. */
  datatype Choice = Accepted | Dismissed

  class PwaInstall {
    var deferredPrompt: Option<InstallPromptEvent>
    var isInstalled: bool

    constructor ()
      ensures deferredPrompt == None && !isInstalled && !CanInstall()
    {
      deferredPrompt := None;
      isInstalled := false;
    }

    /** Installation can be offered exactly while a prompt is stored. */
    predicate CanInstall()
      reads this
    {
      deferredPrompt.Some?
    }

    /** `beforeinstallprompt`: keep the event for later. */
    method HandleBeforeInstall(event: InstallPromptEvent)
      modifies this`deferredPrompt
      ensures deferredPrompt == Some(event) && CanInstall()
    {
      deferredPrompt := Some(event);
    }

    /** `appinstalled`: the app is installed and the prompt is dropped. */
    method HandleInstalled()
      modifies this`isInstalled, this`deferredPrompt
      ensures isInstalled && deferredPrompt == None && !CanInstall()
    {
      isInstalled := true;
      deferredPrompt := None;
    }

    /** `promptInstall` up to its `await`: the stored prompt, if any, is
        shown. Nothing changes yet, so the prompt stays stored and
        installation can still be offered while the user decides. `None`
        means `promptInstall` resolves to false at once. */
    method StartPromptInstall() returns (shown: Option<InstallPromptEvent>)
      ensures shown == deferredPrompt
      ensures shown.Some? <==> CanInstall()
    {
      shown := deferredPrompt;
    }

    /** `promptInstall` after the user's choice: the stored prompt is
        dropped, whichever one is stored by then, and the result says
        whether the user accepted. */
    method FinishPromptInstall(choice: Choice) returns (accepted: bool)
      modifies this`deferredPrompt
      ensures deferredPrompt == None && !CanInstall()
      ensures accepted <==> choice == Accepted
    {
      deferredPrompt := None;
      accepted := choice == Accepted;
    }

    /** `promptInstall` with no event between its two halves: without a
        stored prompt, false and no change; with one, show it (the returned
        event), drop it, and report whether the user accepted. `choice` is
        the user's answer. */
    method PromptInstall(choice: Choice) returns (accepted: bool, shown: Option<InstallPromptEvent>)
      modifies this`deferredPrompt
      ensures shown == old(deferredPrompt)
      ensures old(deferredPrompt).None? ==> !accepted && deferredPrompt == None
      ensures old(deferredPrompt).Some? ==> deferredPrompt == None && (accepted <==> choice == Accepted)
      ensures !CanInstall()
    {
      shown := StartPromptInstall();
      if shown.None? {
        return false, shown;
      }
      accepted := FinishPromptInstall(choice);
    }

    /** A `beforeinstallprompt` event that arrives while the user decides is
        dropped together with the prompt being answered. */
    method PromptInstallWithNewEvent(choice: Choice, event: InstallPromptEvent)
      returns (accepted: bool, shown: Option<InstallPromptEvent>)
      requires CanInstall()
      modifies this`deferredPrompt
      ensures shown == old(deferredPrompt)
      ensures accepted <==> choice == Accepted
      ensures deferredPrompt == None && !CanInstall()
    {
      shown := StartPromptInstall();
      HandleBeforeInstall(event);
      accepted := FinishPromptInstall(choice);
    }
  }
}
