/** The test-mode switches: a master flag and one "use the real thing"
    override per component. Mocks are only ever chosen in test mode. */
module TestMode {

  datatype TestConfig = TestConfig(
    testMode: bool,
    useRealWifi: bool,
    useRealEthernet: bool,
    useRealMoonraker: bool,
    useRealFiles: bool)

  /** A default-constructed configuration: every flag off. */
  const DefaultConfig := TestConfig(false, false, false, false, false)

  predicate ShouldMockWifi(c: TestConfig) { c.testMode && !c.useRealWifi }

  predicate ShouldMockEthernet(c: TestConfig) { c.testMode && !c.useRealEthernet }

  predicate ShouldMockMoonraker(c: TestConfig) { c.testMode && !c.useRealMoonraker }

  predicate ShouldUseTestFiles(c: TestConfig) { c.testMode && !c.useRealFiles }

  predicate IsTestMode(c: TestConfig) { c.testMode }

  /** Some component is mocked. */
  predicate AnyMock(c: TestConfig)
  {
    ShouldMockWifi(c) || ShouldMockEthernet(c) || ShouldMockMoonraker(c) || ShouldUseTestFiles(c)
  }

  /** Outside test mode nothing is mocked, whatever the overrides say; any
      mock at all implies test mode. */
  lemma ProductionNeverMocks(c: TestConfig)
    ensures !IsTestMode(c) ==> !AnyMock(c)
    ensures AnyMock(c) ==> IsTestMode(c)
  {
  }

  /** In test mode each component is mocked exactly when its override is
      not given, so the overrides only ever switch mocks off, one each. */
  lemma TestModeOverrides(c: TestConfig)
    requires IsTestMode(c)
    ensures ShouldMockWifi(c) <==> !c.useRealWifi
    ensures ShouldMockEthernet(c) <==> !c.useRealEthernet
    ensures ShouldMockMoonraker(c) <==> !c.useRealMoonraker
    ensures ShouldUseTestFiles(c) <==> !c.useRealFiles
    ensures ShouldMockWifi(c.(useRealWifi := true)) == false &&
            ShouldMockEthernet(c.(useRealWifi := true)) == ShouldMockEthernet(c)
  {
  }

  /** The default configuration is production: not test mode, no mocks;
      turning on only the master flag mocks everything. */
  lemma DefaultIsProduction()
    ensures !IsTestMode(DefaultConfig) && !AnyMock(DefaultConfig)
    ensures var t := DefaultConfig.(testMode := true);
      ShouldMockWifi(t) && ShouldMockEthernet(t) && ShouldMockMoonraker(t) && ShouldUseTestFiles(t)
  {
  }
}
