/** The switches of the configuration file that reach the controller, and when they take effect. */
module Configuration {
  import opened Wrappers

  datatype Config = Config(doNTPsettime: bool, doSerialsettime: bool, doCalibration: bool)

  /** What the file says about a switch. */
  datatype Setting = Unset | Enabled | Disabled

  datatype File = File(sntp: Setting, serial: Setting, calibrate: Setting)

  /** What `initialize` leaves, at program start and at a restart. */
  const Defaults := Config(true, false, true)

  function Switch(setting: Setting, now: bool): bool {
    match setting
    case Enabled => true
    case Disabled => false
    case Unset => now
  }

  /** `processFiles`: serial time excludes SNTP. */
  function Apply(cfg: Config, file: File): Config {
    Config(file.serial != Enabled && Switch(file.sntp, cfg.doNTPsettime),
           Switch(file.serial, cfg.doSerialsettime),
           Switch(file.calibrate, cfg.doCalibration))
  }

  /** A file that cannot be read changes nothing. */
  function Process(cfg: Config, settings: Option<File>): Config {
    if settings.Some? then Apply(cfg, settings.value) else cfg
  }

  /** Each switch after processing; serial time, once enabled, excludes SNTP. */
  lemma SwitchesFollowFile(cfg: Config, file: File)
    ensures var r := Apply(cfg, file);
      && (r.doCalibration <==> file.calibrate == Enabled || (file.calibrate == Unset && cfg.doCalibration))
      && (r.doSerialsettime <==> file.serial == Enabled || (file.serial == Unset && cfg.doSerialsettime))
      && (r.doNTPsettime <==>
            file.serial != Enabled && (file.sntp == Enabled || (file.sntp == Unset && cfg.doNTPsettime)))
  {
  }

  /** Both are on together exactly if serial time stays on without being named, and SNTP is enabled or stays on too. */
  lemma BothOnIff(cfg: Config, file: File)
    ensures var r := Apply(cfg, file);
      r.doSerialsettime && r.doNTPsettime <==>
        file.serial == Unset && cfg.doSerialsettime && (file.sntp == Enabled || (file.sntp == Unset && cfg.doNTPsettime))
  {
  }

  /** A file that names every switch decides alone. */
  lemma NamedSwitchesDecide(x: Config, y: Config, file: File)
    requires file.sntp != Unset && file.serial != Unset && file.calibrate != Unset
    ensures Apply(x, file) == Apply(y, file)
  {
  }
}
