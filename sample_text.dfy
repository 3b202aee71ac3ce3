/**
 * The texts of the sample records. The server's seed (server/storage.ts) and
 * the client's mock data (client/src/utils/mockData.ts) write the same message
 * contents and room descriptions; they are named here once so that the
 * records that hold them stay small.
 */
module SampleText {
  const WelcomeText: string := "Hey everyone! Welcome to our team chat \U{1F389}"
  const ThanksText: string := "Thanks Sarah! Excited to be working with this amazing team."
  const UpdatesText: string := "Has anyone seen the latest project updates? The new features look incredible!"
  const AuthText: string := "Just pushed the new authentication system. Ready for review! \U{1F680}"
  const StagingText: string := "Looking good! I'll test it on the staging environment."
  const WeekendText: string := "Anyone else excited for the weekend? Planning to try that new restaurant downtown! \U{1F355}"

  const GeneralAbout: string := "Main team discussion"
  const DevelopmentAbout: string := "Technical discussions and code reviews"
  const RandomAbout: string := "Off-topic conversations and fun stuff"
  const DesignAbout: string := "UI/UX discussions and design reviews"
}
